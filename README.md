# OC Vehicle Finder: search core

A Dafny model of the lookup logic of the OC Vehicle Finder, a small
client-side page. The page maps residential units ("flats") to the vehicles
they own and lets a user find a flat, a vehicle number or a vehicle model as
they type. Two pieces are modelled:

- **Row-to-record builder** (`sheet.dfy`, module `Sheet`). Each spreadsheet
  row becomes one `{flat, cars}` record. Cell 0 is the flat. The cells from
  index 1 are read as (number, model) pairs. A car is added only when its
  number cell is non-empty, and a missing or empty model becomes `""`.
  `BuildRecord` is the loop of the row closure. `Build` is the `map` over the
  rows. Both are proved equal to the specification function `RecordOf`.
- **Search** (`lookup.dfy`, module `Lookup`). `SearchData` normalises the
  query with `trim` then `toLowerCase`. A blank query returns no results.
  Otherwise it returns, in this order: the first record whose flat equals the
  query, if any; one car entry per car whose number equals the query, or ends
  with it when the query has exactly four characters; and one model entry
  that gathers every car whose model equals the query, if there is any. The
  method and its two scan loops (`ScanCars`, `ScanModels`) are proved equal to
  the specification function `SearchResults`. The lemmas state the
  properties of `SearchResults`.
- **String built-ins** (`js_string.dfy`, module `JsString`). `Trim` strips
  the full ECMAScript white-space and line-terminator set. `LowerStr`
  lower-cases ASCII letters.

Cells are `Cell = Absent | Text(s)`. JavaScript truthiness of a cell is
"a non-empty string" (`Truthy`). A record keeps its flat as a `Cell`, because
`row[0]` may be missing. `d.flat?.toLowerCase() === q` is then false, and the
model's `FlatIs` is false too.

The builder keeps every row, including rows whose flat is missing or empty;
src/App.jsx:20-29 has no filter. `BlankFlatNeverFlatHit` shows that such a
record never becomes the flat entry. `SearchCarEntries` and
`SearchModelEntry` show that its cars still give car and model entries,
because neither scan looks at the flat.

## Model

| member | source | states |
|---|---|---|
| JsString.TrimStart | src/App.jsx:36 | the result is a suffix of the input; everything dropped is white space; the result does not start with white space |
| JsString.TrimEnd | src/App.jsx:36 | the result is a prefix of the input; everything dropped is white space; the result does not end with white space |
| JsString.Trim | src/App.jsx:36 | `trim` gives a contiguous slice of the input with only white space before and after it; `""` exactly when the input is all white space; otherwise the result neither starts nor ends with white space |
| JsString.TrimOfTrimmed | src/App.jsx:36 | a string that neither starts nor ends with white space is its own trim |
| JsString.LowerStrIdempotent | src/App.jsx:36 | lower-casing twice equals lower-casing once, and leaves no upper-case ASCII letter |
| JsString.LowerOfUpper | src/App.jsx:36 | for the model's ASCII case mapping, upper-casing then lower-casing equals lower-casing |
| JsString.TrimLowerCommute | src/App.jsx:36 | trimming and lower-casing commute |
| JsString.TrimIdempotent | src/App.jsx:36 | trimming a trimmed string changes nothing |
| JsString.TrimIgnoresPadding | src/App.jsx:36 | white space added on both sides of a string does not change its trim |
| Sheet.ModelAt | src/App.jsx:25 | the model read from cell `i` is `""` exactly when that cell is missing or empty |
| Sheet.CarsFromSound | src/App.jsx:23-26 | every car comes from a cell at an even offset from the start index, with a non-empty number; its model is the next cell or `""` |
| Sheet.CarsFromComplete | src/App.jsx:23-26 | every such cell with a non-empty number yields its car |
| Sheet.CarsFromBound | src/App.jsx:23 | there are no more cars than pairs from the start index, `(len - i + 1) / 2` |
| Sheet.RecordOfRow | src/App.jsx:20-28 | a record's flat is cell 0 (missing for an empty row); each car comes from an odd cell with a non-empty number; every such cell gives a car; at most `len / 2` cars |
| Sheet.NumberCellsSound | src/App.jsx:23-24 | every listed cell is at an even offset from the start index, inside the row, and holds a non-empty number |
| Sheet.NumberCellsSorted | src/App.jsx:23 | the listed cells are in strictly increasing column order, so none is listed twice |
| Sheet.NumberCellsComplete | src/App.jsx:23-24 | every cell at an even offset from the start index holding a non-empty number is listed |
| Sheet.CarsFromInOrder | src/App.jsx:23-26 | there is exactly one car per listed cell, and the `k`-th car is read from the `k`-th listed cell |
| Sheet.RecordCarsInColumnOrder | src/App.jsx:21-28 | a record has exactly as many cars as odd cells with a non-empty number, and its `k`-th car comes from the `k`-th such cell, left to right |
| Sheet.BuildRecord | src/App.jsx:21-28 | the loop that steps by two from cell 1 produces exactly `RecordOf(row)` |
| Sheet.Build | src/App.jsx:20-29 | one record per row, in row order, none filtered: record `k` is `RecordOf(rows[k])` |
| Sheet.PairingExample | src/App.jsx:20-28 | `[A101, KA01AB1234, Swift, KA01CD5678]` gives two cars; the trailing number gets model `""` |
| Lookup.FirstFlat | src/App.jsx:45 | `find`: nothing exactly when no record's flat equals the query; otherwise the first record whose flat equals it |
| Lookup.OwnersMembers | src/App.jsx:50-51 | the scan visits exactly the cars of all records, each paired with its record's flat |
| Lookup.OwnersAppend | src/App.jsx:50-51 | scanning two lists of records in turn visits the cars of the first, then those of the second |
| Lookup.OwnersInOrder | src/App.jsx:50-51 | the cars of record `k`, with its flat and in their own order, come after those of every earlier record and before those of every later one |
| Lookup.OwnersSound | src/App.jsx:50-51 | every owner the scan visits is a car of some record, paired with that record's flat |
| Lookup.CarHitsSplit | src/App.jsx:50-63 | each car adds at most one car entry, at its own place in scan order, and adds one exactly when its number matches |
| Lookup.CarHitsMembers | src/App.jsx:50-63 | the car entries are exactly the matching cars with their flats; there are no more entries than cars |
| Lookup.NumberRule | src/App.jsx:54-61 | for a query not of length 4 only full equality matches; for a 4-character query the match is "ends with", which a full match satisfies too, so the `else if` adds no second entry |
| Lookup.ModelOwnersSplit | src/App.jsx:66-73 | each car appears in `modelMatches` at most once, at its own place in scan order, and once exactly when its model equals the query |
| Lookup.ModelOwnersMembers | src/App.jsx:66-73 | `modelMatches` holds exactly the cars whose model equals the query |
| Lookup.SearchCategoryOrder | src/App.jsx:42-74 | a flat entry can only be first and a model entry only last, so there is at most one of each, with the car entries between them |
| Lookup.SearchFlatEntry | src/App.jsx:45-46 | the flat entry is present exactly when the query is not blank and some flat equals it; it carries the flat and cars of the first such record |
| Lookup.SomeModelMatches | src/App.jsx:66-73 | `modelMatches` is non-empty exactly when some car's model equals the query |
| Lookup.SearchLastEntry | src/App.jsx:74 | for a non-blank query the last entry is a model entry exactly when `modelMatches` is non-empty, and it then holds `modelMatches` |
| Lookup.SearchModelEntry | src/App.jsx:66-74 | the model entry is present exactly when the query is not blank and some car's model equals it; it holds every such car with its flat |
| Lookup.BlankQueryNoResults | src/App.jsx:36-40 | an empty or all-white-space query gives no results, whatever the records |
| Lookup.NonBlankQueryCanMatch | src/App.jsx:36-46 | for any other query, a one-record list whose flat is the normalised query gives exactly that flat entry |
| Lookup.NormalizeIdempotent | src/App.jsx:36 | normalising a normalised query changes nothing |
| Lookup.SearchNormalizedQuery | src/App.jsx:36 | searching for the normalised query gives the same results as the query itself |
| Lookup.SearchCaseInsensitive | src/App.jsx:36 | queries with the same lower-case form give the same results |
| Lookup.SearchIgnoresUpperCase | src/App.jsx:36 | for the model's ASCII case mapping, upper-casing the query does not change the results |
| Lookup.SearchIgnoresPadding | src/App.jsx:36 | white space around the query does not change the results |
| Lookup.SearchCarEntries | src/App.jsx:50-63 | every car whose number matches a non-blank query gives a car entry with its record's flat, whatever that flat is |
| Lookup.BlankFlatNeverFlatHit | src/App.jsx:45 | a flat entry always has a non-empty flat, so a record with a missing or empty flat is never the flat entry |
| Lookup.ScanCars | src/App.jsx:50-63 | the nested loops push exactly the car entries of the scan, in order |
| Lookup.ScanModels | src/App.jsx:66-73 | the nested loops gather exactly `modelMatches`, in order |
| Lookup.SearchData | src/App.jsx:35-77 | the method returns exactly `SearchResults(data, val)` |
| Lookup.FourCharExactOnce | src/App.jsx:54-61 | number `1234` and query `1234` give exactly one car entry |
| Lookup.ModelAggregation | src/App.jsx:66-74 | two `Swift` cars in two flats give one model entry listing both, in scan order, and nothing else |

## Left out

- Loading the bundled `.xlsx` with `fetch` and decoding it with the `xlsx` library (src/App.jsx:13-18): I/O and a foreign library. The model starts from a sequence of rows of cells.
- React state and effects (`useState`, the load effect, the re-search effect, `setData`, `setResults`): UI reactivity. `SearchData` returns the list that the source passes to `setResults`.
- `console.log` and all JSX rendering, including the "No matching records found" message: presentation.
- Cells that hold numbers: `d.flat?.toLowerCase()` would throw on a numeric flat, and `0` is falsy. Cells are modelled as missing or strings only.
- `String(car.number || "")` and `String(car.model || "")` are modelled as the string itself. For string fields both are the identity, because `"" || ""` is `""`.
- JsString.LowerStr: lower-cases ASCII letters only, not the full Unicode case mapping of `toLowerCase`.
- JsString.LowerOfUpper: holds for the model's ASCII-only `UpperStr` and `LowerStr`, not for JavaScript's full case mapping: `"ß".toUpperCase().toLowerCase()` is `"ss"`, and `"ı"` and `"ſ"` upper-case to `"I"` and `"S"`, which lower-case to `"i"` and `"s"`.
- Lookup.SearchIgnoresUpperCase: holds for ASCII case mapping only. In the program, with a car whose model is `Swift`, the query `SWIFT` (the upper case of `ſwift`) gives a model entry and `ſwift` gives none; queries containing ß, ı or ſ behave the same way.
- JavaScript strings are sequences of UTF-16 code units. The model uses sequences of Unicode scalar values, so `q.length === 4` differs for queries with characters outside the Basic Multilingual Plane.

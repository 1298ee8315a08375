# WorldCities list results, in Dafny

Every list endpoint of the WorldCities web API (cities, countries) answers
with an `ApiResult<T>`. The builder `ApiResult<T>.CreateAsync` takes a
queryable source of records and six raw query parameters: page index and
size, sort column and order, filter column and query. It then:

1. checks the sort and filter column names against the record type's
   public properties, ignoring case; an unknown name throws
   `NotSupportedException`;
2. orders by the sort column when one is given. Only "asc", in any case,
   means ascending; anything else, null and "" included, means descending,
   and the normalised "ASC"/"DESC" is echoed back;
3. keeps only the records whose filter column starts with the filter
   query, when both are non-empty;
4. counts the surviving records, takes the page
   `Skip(pageIndex * pageSize).Take(pageSize)`, and wraps it in an
   envelope with `TotalPages`, `HasNextPage` and `HasPreviousPage`.

Beside the builder, the model covers the controllers' duplicate checks
`IsDupeCountry`, `IsDupeField` and `IsDupeCity`. Each asks whether another
stored record, with a different Id, carries the same values.

Files:

- `wrappers.dfy`: nullable strings (`Option`) and thrown exceptions
  (`Result`).
- `text.dfy`: `string.IsNullOrEmpty`, upper-casing, case-insensitive
  equality and `StartsWith`.
- `linq.dfy`: the sequence operators the builder composes: `Any`,
  `Where`, `OrderBy`, `Skip` and `Take`. It proves that ordering then
  filtering equals filtering then ordering.
- `api_result.dfy`: the envelope datatype `ApiResult`, the property lookup
  `IsValidProperty`, and the builder `CreateAsync`. `CreateAsync` is a
  method that rebinds its working sequence stage by stage, as the C# does.
  The stage functions (`SortStage`, `FilterStage`, `Selected`, `Page`)
  specify it, and lemmas give their meaning.
- `api_result_examples.dfy`: worked requests over a two-column record
  type: sort direction, prefix filter, a page past the end, an unknown
  column.
- `countries_controller.dfy` and `cities_controller.dfy`: the duplicate
  checks, as predicates over a sequence of records standing in for each
  table.

The record type `T` is abstract. Its public properties are a `Schema<T>`:
a sequence of `Property(Name, Key, Text)` in declaration order. `Key` is the
value the query layer orders by, and `Text` is the string a prefix is
matched against. The envelope is a datatype, because its setters are
private and it never changes after the constructor assigns its fields.
`NewApiResult` models that private constructor.

Three facts about the code shape the model:

- The code orders before it filters (`ApiResult.cs:44` and `:50`).
  `FilterFirstIsEquivalent` proves that filtering first selects the same
  sequence.
- The code has no page-size check. The model requires `pageSize > 0`
  because its integer ceiling for `TotalPages` needs a positive divisor.
- A non-empty unknown sort column throws, because `IsValidProperty` is
  called with its default, throwing, flag. It is never silently ignored.

## Model

| member | source | states |
|---|---|---|
| `ApiResults.CreateAsync` | WorldCities/Data/ApiResult.cs:31-66 | Fails exactly when a non-empty sort or filter column is not a property, naming the sort column first. An unknown filter column fails even with an empty query. On success: Data is the requested page of the selected records; TotalCount is the number selected, which does not depend on the page; TotalPages is the ceiling of count over size. Page, size, columns and query are echoed. SortOrder is normalised to "ASC"/"DESC" only when a sort column was given, and is otherwise echoed unchanged. HasNextPage holds iff records lie beyond the page, HasPreviousPage iff the index is positive, and the page holds at most pageSize records |
| `ApiResults.IsValidProperty` | WorldCities/Data/ApiResult.cs:67-78 | Returns true iff the name matches a declared property, ignoring case. An unknown name throws `NotSupportedException` naming it when the flag is set, and returns false otherwise |
| `ApiResults.FindProperty` | WorldCities/Data/ApiResult.cs:69-72 | The reflection lookup finds a property exactly when one is declared under that name, ignoring case, and the one it finds has a matching name |
| `ApiResults.ValidityIgnoresCase` | WorldCities/Data/ApiResult.cs:69-72 | Two spellings that differ only in case are valid or invalid together, in both modes |
| `ApiResults.UpperCasedNameIsValid` | WorldCities/Data/ApiResult.cs:69-72 | Upper-casing a requested column name never changes whether it is valid |
| `ApiResults.SortOrderNormalization` | WorldCities/Data/ApiResult.cs:43 | The echoed order is "ASC" or "DESC". It is "ASC" exactly for the eight mixed-case spellings of "asc"; null, "", "ascending" and everything else give "DESC" |
| `ApiResults.CeilDiv` | WorldCities/Data/ApiResult.cs:24 | For a positive page size, TotalPages is the ceiling of TotalCount / PageSize: pages * size >= count > (pages - 1) * size |
| `ApiResults.PageCountUnique` | WorldCities/Data/ApiResult.cs:24 | The ceiling characterisation admits only one page count |
| `ApiResults.NewApiResult` | WorldCities/Data/ApiResult.cs:9-29 | The private constructor stores data, count, index, size, columns, order and query unchanged, and derives TotalPages as the ceiling of count over size |
| `ApiResults.HasNextPageIff` | WorldCities/Data/ApiResult.cs:85-91 | `PageIndex + 1 < TotalPages` holds exactly when some selected record lies after the current page: (PageIndex + 1) * PageSize < TotalCount |
| `ApiResults.Page` | WorldCities/Data/ApiResult.cs:53-55 | The page holds at most pageSize records. It is empty when pageIndex * pageSize >= the count; otherwise it holds min(pageSize, count - pageIndex * pageSize) records, each the record at offset pageIndex * pageSize + i |
| `ApiResults.FilterFirstIsEquivalent` | WorldCities/Data/ApiResult.cs:41-51 | Ordering then filtering, as the code does, selects the same sequence as filtering then ordering |
| `ApiResults.SelectedIsSorted` | WorldCities/Data/ApiResult.cs:41-47 | With a sort column in effect, the selected records are ordered by that column: ascending when the order was "asc", descending otherwise. The filter keeps this order |
| `ApiResults.SelectedByFilter` | WorldCities/Data/ApiResult.cs:48-51 | With both filter column and query given, a record is selected as often as it occurs in the source if its column starts with the query, and never otherwise |
| `ApiResults.UnfilteredSelectsAll` | WorldCities/Data/ApiResult.cs:48-52 | Without both filter column and query, the selection is a permutation of the source, so TotalCount is the source's length |
| `ApiResults.UnsortedKeepsOrder` | WorldCities/Data/ApiResult.cs:41-51 | Without a sort column no ordering is applied: the selection is the filtered source in source order, and with no filter it is the source itself |
| `Linq.OrderBy` | WorldCities/Data/ApiResult.cs:44-46 | The key sort behind `source.OrderBy("{column} {order}")`, defined as a stable insertion sort. Its contract is stated by `OrderByPermutes` (same records) and `OrderBySorted` (sorted in the requested direction) |
| `ApiResults.SortStage` | WorldCities/Data/ApiResult.cs:41-47 | The sort step: the source unchanged for a null or empty sort column, otherwise ordered by the named property, ascending only for "asc". `SortStagePermutes` and `SelectedIsSorted` state what it keeps |
| `ApiResults.FilterStage` | WorldCities/Data/ApiResult.cs:48-51 | The filter step: applied only when both filter column and query are non-empty and the column is a property, keeping the records whose column text starts with the query. `SelectedByFilter` states what it keeps |
| `ApiResults.Selected` | WorldCities/Data/ApiResult.cs:41-51 | The records the request selects before paging: the sort step followed by the filter step, in the code's order. `CreateAsync`'s ensures are written in it |
| `ApiResults.ApiResult.HasNextPage` | WorldCities/Data/ApiResult.cs:85-91 | `PageIndex + 1 < TotalPages`. `HasNextPageIff` states its meaning: some record lies after the current page |
| `ApiResults.ApiResult.HasPreviousPage` | WorldCities/Data/ApiResult.cs:92-98 | `PageIndex > 0`. `CreateAsync` promises it holds exactly when the requested index is positive |
| `Text.IsNullOrEmpty` | WorldCities/Data/ApiResult.cs:41-48 | `string.IsNullOrEmpty`: true for null and for "" only. It decides whether the sort step, the order normalisation and the filter step apply |
| `Text.StartsWith` | WorldCities/Data/ApiResult.cs:50 | The prefix test behind `{column}.startsWith(@0)`. `StartsWithLeadingChars` states its meaning |
| `Text.StartsWithLeadingChars` | WorldCities/Data/ApiResult.cs:50 | A text starts with a prefix exactly when it is at least as long and its first characters are the prefix's characters |
| `Text.EqualsIgnoreCase` | WorldCities/Data/ApiResult.cs:69-72 | The name comparison of `BindingFlags.IgnoreCase`. `EqualsIgnoreCaseCharwise` states its meaning |
| `Text.EqualsIgnoreCaseCharwise` | WorldCities/Data/ApiResult.cs:69-72 | Two names are equal ignoring case exactly when they have the same length and agree position by position once each character is upper-cased |
| `Linq.Where` | WorldCities/Data/ApiResult.cs:50 | The filter keeps only records satisfying the predicate, each from the source, and never grows the sequence |
| `Linq.WhereMultiplicity` | WorldCities/Data/ApiResult.cs:50 | The filter keeps every satisfying record with its multiplicity and drops all others |
| `Linq.OrderByPermutes` | WorldCities/Data/ApiResult.cs:44-46 | Ordering only rearranges: the result holds exactly the records of its input, each as often |
| `Linq.OrderBySorted` | WorldCities/Data/ApiResult.cs:44-46 | The ordered sequence is sorted by the key, ascending or descending as requested |
| `Linq.InsertPermutes` | WorldCities/Data/ApiResult.cs:44-46 | Inserting adds exactly the one record to the sequence's contents |
| `Linq.InsertSorted` | WorldCities/Data/ApiResult.cs:44-46 | Inserting into a sorted sequence keeps it sorted |
| `ApiResults.SortStagePermutes` | WorldCities/Data/ApiResult.cs:41-47 | The sort step, whether it runs or not, keeps every record of the source exactly as often |
| `Linq.WherePreservesSorted` | WorldCities/Data/ApiResult.cs:44-50 | Filtering a sorted sequence leaves it sorted |
| `Linq.WhereInsert` | WorldCities/Data/ApiResult.cs:44-50 | Filtering after an insertion equals inserting into the filtered sequence when the inserted record survives the filter, and equals the filtered sequence otherwise |
| `Linq.WhereOrderBy` | WorldCities/Data/ApiResult.cs:44-50 | Filtering an ordered sequence equals ordering the filtered sequence |
| `Linq.Skip` | WorldCities/Data/ApiResult.cs:53 | Skipping n records leaves the records after position n, or none |
| `Linq.Take` | WorldCities/Data/ApiResult.cs:53 | Taking n records gives a prefix of length min(n, length) |
| `Linq.Any` | WorldCities/Controllers/CountriesController.cs:121 | True iff some record satisfies the predicate |
| `Text.ToUpper` | WorldCities/Data/ApiResult.cs:43 | Upper-casing keeps the length and folds each character on its own |
| `Text.UpperIsAsc` | WorldCities/Data/ApiResult.cs:43 | A string upper-cases to "ASC" exactly when it spells "asc" in some mix of cases |
| `Text.ToUpperIdempotent` | WorldCities/Data/ApiResult.cs:71 | Upper-casing twice is upper-casing once |
| `Text.EqualsIgnoreCaseOwnUpper` | WorldCities/Data/ApiResult.cs:71 | A name equals its upper-cased spelling when case is ignored |
| `ApiResultExamples.SortDirectionExample` | WorldCities/Data/ApiResult.cs:41-46 | Sorting {A:3, B:1, C:2} by "value" with order "asc" gives B, C, A; with no order it gives A, C, B |
| `ApiResultExamples.PrefixFilterExample` | WorldCities/Data/ApiResult.cs:48-51 | Filtering {Paris, Prague, Lagos} on "name" by "Pra" keeps only Prague |
| `ApiResultExamples.DoesNotExistIsUnknown` | WorldCities/Data/ApiResult.cs:69-75 | "doesNotExist" is not a property of the example record type, so requesting it as a sort column fails |
| `CountriesController.IsDupeCountry` | WorldCities/Controllers/CountriesController.cs:118-129 | True iff some stored country with a different Id has the same Name, ISO2 and ISO3 |
| `CountriesController.IsDupeField` | WorldCities/Controllers/CountriesController.cs:131-145 | For "name", "iso2" and "iso3": true iff some stored country with a different Id holds the value in that field. Any other field name gives false |
| `CountriesController.SameIdNeverCounts` | WorldCities/Controllers/CountriesController.cs:121-141 | Adding a record with the candidate's own Id changes neither check |
| `CountriesController.NoDupesWithoutOthers` | WorldCities/Controllers/CountriesController.cs:121-141 | With an empty table, or with only the candidate itself stored, both checks are false |
| `CountriesController.DupeCountryHasDupeFields` | WorldCities/Controllers/CountriesController.cs:121-141 | A whole-country duplicate is a duplicate in each of name, iso2 and iso3 |
| `CountriesController.DupeFieldsWithoutDupeCountry` | WorldCities/Controllers/CountriesController.cs:121-141 | The converse fails: three field duplicates held by different countries are not a country duplicate |
| `CountriesController.FieldNameIsCaseSensitive` | WorldCities/Controllers/CountriesController.cs:134-144 | The field name is matched exactly: "Name", "ISO2" and "ISO3" always give false |
| `CitiesController.IsDupeCity` | WorldCities/Controllers/CitiesController.cs:118-131 | True iff some stored city with a different Id has the same Name, Lat, Lon and CountryId |
| `CitiesController.DistinctCityIsNotDupe` | WorldCities/Controllers/CitiesController.cs:121-130 | A city that differs from every other-Id record in one of the four fields is not a duplicate |
| `CitiesController.SameIdNeverCounts` | WorldCities/Controllers/CitiesController.cs:128 | Removing the records that share the candidate's Id never changes the answer |
| `CitiesController.DupeIsMonotone` | WorldCities/Controllers/CitiesController.cs:121 | Adding records never removes a duplicate, and an empty table has none |

## Left out

- Query building. Entity Framework Core and System.Linq.Dynamic.Core turn
  the strings `"{column} {order}"` and `"{column}.startsWith(@0)"` into a
  database query. The model applies the corresponding sequence operations
  directly.
- Collation and prefix matching on non-strings. Each property carries an
  abstract integer ordering key, and the database's collation and string
  ordering are not modelled. Each property also carries an abstract text
  for prefix matching. The model's `StartsWith` is ordinal and
  case-sensitive, while a database may compare case-insensitively. What
  the query layer does when asked to prefix-match a number column is not
  modelled. The same applies to the duplicate checks `IsDupeCountry`,
  `IsDupeField` and `IsDupeCity`. On SQL Server their field equalities
  become SQL `=` under the column collation, which typically ignores case
  and trailing spaces. The model compares strings exactly.
- Linq.OrderBy: ties keep their source order (a stable sort); a database
  `ORDER BY` does not promise this. `FilterFirstIsEquivalent` relies on it.
- Reflection. `typeof(T).GetProperty` becomes a lookup in the declared
  property list. Two properties whose names differ only in case would
  make reflection throw `AmbiguousMatchException`; the model takes the
  first.
- Text.ToUpper: only ASCII letters are folded. Culture-specific and
  non-ASCII case mappings are not modelled. The same applies to the
  case-insensitive property match.
- ApiResults.CeilDiv: exact integer ceiling in place of
  `Math.Ceiling((double)count / pageSize)`. Floating point is not
  modelled.
- ApiResults.CreateAsync: requires `pageSize > 0` and `pageIndex >= 0`.
  The code checks neither. With a zero size, `(double)TotalCount / PageSize`
  gives Infinity or NaN and the cast to `int` gives an unspecified value.
  A negative size or index leads to provider-specific `Skip`/`Take`
  behaviour. The model's integer ceiling needs a positive size. Integers
  here are unbounded, so 32-bit wrap-around is not modelled. That covers
  `pageIndex * pageSize` at `ApiResult.cs:53`. It also covers
  `PageIndex + 1` at `ApiResult.cs:89`: with `pageIndex = int.MaxValue`
  the sum wraps to `int.MinValue`, so `HasNextPage` is true even for an
  empty table, where the model says false.
- Asynchrony. `CountAsync` and the fetch are two separate reads of the
  source. The model reads one unchanging sequence, so a write between the
  two is not modelled.
- Controller plumbing is not part of this model. That covers the CRUD
  actions, `SaveChangesAsync`, concurrency-exception handling, the
  `CityDTO`/`CountryDTO` projections, seeding, accounts, GraphQL and
  program wiring. All of it is I/O over the ORM and identity libraries.
  The duplicate checks read the table as a sequence passed in.

/**
 * `ApiResult<T>`: the envelope every list endpoint returns, and the
 * pipeline that builds it from a source of records and six raw query
 * parameters (sort column and order, filter column and query, page index
 * and size).
 */
module ApiResults {
  import opened Wrappers
  import opened Text
  import opened Linq

  /**
   * One public instance property of the record type: its declared name, the
   * key the query layer orders by, and the text it matches a prefix against.
   */
  datatype Property<-T> = Property(Name: string, Key: T -> int, Text: T -> string)

  /** The public instance properties of the record type, in declaration order. */
  type Schema<-T> = seq<Property<T>>

  /** The `NotSupportedException` thrown for a name that is not a property. */
  datatype NotSupportedException = UnknownProperty(propertyName: string)

  /** `name` is a declared property name, ignoring case. */
  ghost predicate Declared<T>(schema: Schema<T>, name: string) {
    exists i :: 0 <= i < |schema| && EqualsIgnoreCase(schema[i].Name, name)
  }

  /** A non-empty column was requested that the record type does not have. */
  ghost predicate Rejected<T>(schema: Schema<T>, column: Option<string>) {
    !IsNullOrEmpty(column) && !Declared(schema, column.value)
  }

  /** The reflection lookup `typeof(T).GetProperty(name, IgnoreCase | Public | Instance)`. */
  function FindProperty<T>(schema: Schema<T>, name: string): (r: Option<nat>)
    ensures r.Some? <==> Declared(schema, name)
    ensures r.Some? ==> r.value < |schema| && EqualsIgnoreCase(schema[r.value].Name, name)
  {
    if schema == [] then None
    else if EqualsIgnoreCase(schema[0].Name, name) then Some(0)
    else
      match FindProperty(schema[1..], name)
      case None =>
        assert forall i :: 1 <= i < |schema| ==> schema[i] == schema[1..][i - 1];
        None
      case Some(i) => Some(i + 1)
  }

  /**
   * `IsValidProperty`: true when the name is a declared property; for an
   * unknown name it throws, unless `throwExceptionIfNotFound` is false.
   */
  function IsValidProperty<T>(schema: Schema<T>, propertyName: string, throwExceptionIfNotFound: bool)
    : (r: Result<bool, NotSupportedException>)
    ensures r.Failure? <==> throwExceptionIfNotFound && !Declared(schema, propertyName)
    ensures r.Failure? ==> r.error == UnknownProperty(propertyName)
    ensures r.Success? ==> (r.value <==> Declared(schema, propertyName))
  {
    var prop := FindProperty(schema, propertyName);
    if prop.None? && throwExceptionIfNotFound then Failure(UnknownProperty(propertyName))
    else Success(prop.Some?)
  }

  /** Two spellings of a name that differ only in case are both valid or both invalid. */
  lemma ValidityIgnoresCase<T>(schema: Schema<T>, a: string, b: string, throwExceptionIfNotFound: bool)
    requires EqualsIgnoreCase(a, b)
    ensures IsValidProperty(schema, a, throwExceptionIfNotFound).Success?
        == IsValidProperty(schema, b, throwExceptionIfNotFound).Success?
    ensures IsValidProperty(schema, a, false) == IsValidProperty(schema, b, false)
  {
  }

  /** A column requested in upper case is exactly as valid as the name it upper-cases. */
  lemma UpperCasedNameIsValid<T>(schema: Schema<T>, name: string, throwExceptionIfNotFound: bool)
    ensures IsValidProperty(schema, ToUpper(name), throwExceptionIfNotFound).Success?
        == IsValidProperty(schema, name, throwExceptionIfNotFound).Success?
    ensures IsValidProperty(schema, ToUpper(name), false) == IsValidProperty(schema, name, false)
  {
    EqualsIgnoreCaseOwnUpper(name);
    ValidityIgnoresCase(schema, ToUpper(name), name, throwExceptionIfNotFound);
  }

  /** The sort direction: ascending only for "asc" in any case, descending for anything else. */
  predicate IsAscending(sortOrder: Option<string>) {
    !IsNullOrEmpty(sortOrder) && ToUpper(sortOrder.value) == "ASC"
  }

  /** The sort order echoed back once a sort column is in effect. */
  function NormalizedSortOrder(sortOrder: Option<string>): string {
    if IsAscending(sortOrder) then "ASC" else "DESC"
  }

  /**
   * Only the spellings of "asc" give ascending order; anything else, null
   * and the empty string included, gives "DESC".
   */
  lemma SortOrderNormalization(sortOrder: Option<string>)
    ensures NormalizedSortOrder(sortOrder) == "ASC" || NormalizedSortOrder(sortOrder) == "DESC"
    ensures NormalizedSortOrder(sortOrder) == "ASC" <==>
      && sortOrder.Some? && |sortOrder.value| == 3
      && (sortOrder.value[0] == 'a' || sortOrder.value[0] == 'A')
      && (sortOrder.value[1] == 's' || sortOrder.value[1] == 'S')
      && (sortOrder.value[2] == 'c' || sortOrder.value[2] == 'C')
  {
    if sortOrder.Some? {
      UpperIsAsc(sortOrder.value);
    }
  }

  /** The number of pages of `pageSize` records needed for `count` records. */
  predicate IsPageCount(pages: int, count: int, pageSize: int) {
    pages * pageSize >= count && (pages - 1) * pageSize < count
  }

  /** `Math.Ceiling((double)count / pageSize)`, in exact integer arithmetic. */
  function CeilDiv(count: nat, pageSize: nat): (pages: nat)
    requires pageSize > 0
    ensures IsPageCount(pages, count, pageSize)
  {
    var q := (count + pageSize - 1) / pageSize;
    var m := (count + pageSize - 1) % pageSize;
    assert count + pageSize - 1 == q * pageSize + m;
    assert (q - 1) * pageSize == q * pageSize - pageSize;
    q
  }

  /** The page count is the only one that fits: no other number of pages satisfies the ceiling. */
  lemma PageCountUnique(p1: int, p2: int, count: int, pageSize: int)
    requires pageSize > 0
    requires IsPageCount(p1, count, pageSize) && IsPageCount(p2, count, pageSize)
    ensures p1 == p2
  {
    if p1 < p2 {
      MulMonotone(p1, p2 - 1, pageSize);
    } else if p2 < p1 {
      MulMonotone(p2, p1 - 1, pageSize);
    }
  }

  lemma MulMonotone(a: int, b: int, k: int)
    requires a <= b && k >= 0
    ensures a * k <= b * k
  {
    assert b * k - a * k == (b - a) * k;
  }

  /** The response envelope; its setters are private, so it never changes after construction. */
  datatype ApiResult<T> = ApiResult(
    Data: seq<T>,
    PageIndex: nat,
    PageSize: nat,
    TotalCount: nat,
    TotalPages: nat,
    SortColumn: Option<string>,
    SortOrder: Option<string>,
    FilterColumn: Option<string>,
    FilterQuery: Option<string>)
  {
    predicate HasNextPage() {
      PageIndex + 1 < TotalPages
    }

    predicate HasPreviousPage() {
      PageIndex > 0
    }
  }

  /** The private constructor: stores what it is given and derives `TotalPages`. */
  function NewApiResult<T>(data: seq<T>, count: nat, pageIndex: nat, pageSize: nat,
                           sortColumn: Option<string>, sortOrder: Option<string>,
                           filterColumn: Option<string>, filterQuery: Option<string>)
    : (r: ApiResult<T>)
    requires pageSize > 0
    ensures IsPageCount(r.TotalPages, count, pageSize)
    ensures r.Data == data && r.TotalCount == count && r.PageIndex == pageIndex && r.PageSize == pageSize
    ensures r.SortColumn == sortColumn && r.SortOrder == sortOrder
    ensures r.FilterColumn == filterColumn && r.FilterQuery == filterQuery
  {
    ApiResult(data, pageIndex, pageSize, count, CeilDiv(count, pageSize), sortColumn, sortOrder, filterColumn, filterQuery)
  }

  /** There is a next page exactly when some selected record lies beyond the current page. */
  lemma HasNextPageIff<T>(e: ApiResult<T>)
    requires e.PageSize > 0 && IsPageCount(e.TotalPages, e.TotalCount, e.PageSize)
    ensures e.HasNextPage() <==> (e.PageIndex + 1) * e.PageSize < e.TotalCount
  {
    if e.PageIndex + 1 < e.TotalPages {
      MulMonotone(e.PageIndex + 1, e.TotalPages - 1, e.PageSize);
    } else {
      MulMonotone(e.TotalPages, e.PageIndex + 1, e.PageSize);
    }
  }

  /** The ordering stage: applied only for a non-empty sort column that names a property. */
  function SortStage<T>(schema: Schema<T>, source: seq<T>, sortColumn: Option<string>, sortOrder: Option<string>)
    : seq<T>
  {
    if IsNullOrEmpty(sortColumn) then source
    else
      match FindProperty(schema, sortColumn.value)
      case None => source
      case Some(i) => OrderBy(source, schema[i].Key, IsAscending(sortOrder))
  }

  /** The ordering stage only rearranges the source. */
  lemma SortStagePermutes<T>(schema: Schema<T>, source: seq<T>, sortColumn: Option<string>, sortOrder: Option<string>)
    ensures multiset(SortStage(schema, source, sortColumn, sortOrder)) == multiset(source)
  {
    if !IsNullOrEmpty(sortColumn) && FindProperty(schema, sortColumn.value).Some? {
      var i := FindProperty(schema, sortColumn.value).value;
      OrderByPermutes(source, schema[i].Key, IsAscending(sortOrder));
    }
  }

  /** The filter `{column}.startsWith(@0)` with `@0` bound to the query. */
  function PrefixFilter<T>(text: T -> string, query: string): T -> bool {
    x => StartsWith(text(x), query)
  }

  /** The filter is in effect: both column and query are non-empty. */
  predicate FilterRequested(filterColumn: Option<string>, filterQuery: Option<string>) {
    !IsNullOrEmpty(filterColumn) && !IsNullOrEmpty(filterQuery)
  }

  /** The filtering stage: applied only when both column and query are given and the column is a property. */
  function FilterStage<T>(schema: Schema<T>, s: seq<T>, filterColumn: Option<string>, filterQuery: Option<string>)
    : seq<T>
  {
    if !FilterRequested(filterColumn, filterQuery) then s
    else
      match FindProperty(schema, filterColumn.value)
      case None => s
      case Some(i) => Where(s, PrefixFilter(schema[i].Text, filterQuery.value))
  }

  /** The records the request selects, before paging: ordered first, then filtered, as the builder does. */
  function Selected<T>(schema: Schema<T>, source: seq<T>,
                       sortColumn: Option<string>, sortOrder: Option<string>,
                       filterColumn: Option<string>, filterQuery: Option<string>): seq<T>
  {
    FilterStage(schema, SortStage(schema, source, sortColumn, sortOrder), filterColumn, filterQuery)
  }

  /** The page `Skip(pageIndex * pageSize).Take(pageSize)`. */
  function Page<T>(s: seq<T>, pageIndex: nat, pageSize: nat): (r: seq<T>)
    ensures |r| <= pageSize
    ensures pageIndex * pageSize >= |s| ==> r == []
    ensures pageIndex * pageSize < |s| ==>
      |r| == if pageSize <= |s| - pageIndex * pageSize then pageSize else |s| - pageIndex * pageSize
    ensures forall i :: 0 <= i < |r| ==> pageIndex * pageSize + i < |s| && r[i] == s[pageIndex * pageSize + i]
  {
    Take(Skip(s, pageIndex * pageSize), pageSize)
  }

  /**
   * Building the result envelope. The error cases come first, sort column
   * before filter column; then the data is the requested page of the
   * selected records, and the counts and echoed parameters are filled in.
   */
  method CreateAsync<T>(schema: Schema<T>, source: seq<T>, pageIndex: nat, pageSize: nat,
                        sortColumn: Option<string>, sortOrder: Option<string>,
                        filterColumn: Option<string>, filterQuery: Option<string>)
    returns (r: Result<ApiResult<T>, NotSupportedException>)
    requires pageSize > 0
    ensures r.Failure? <==> Rejected(schema, sortColumn) || Rejected(schema, filterColumn)
    ensures Rejected(schema, sortColumn) ==> r.Failure? && r.error == UnknownProperty(sortColumn.value)
    ensures !Rejected(schema, sortColumn) && Rejected(schema, filterColumn) ==>
      r.Failure? && r.error == UnknownProperty(filterColumn.value)
    ensures r.Success? ==>
      var selected := Selected(schema, source, sortColumn, sortOrder, filterColumn, filterQuery);
      && r.value.Data == Page(selected, pageIndex, pageSize)
      && r.value.TotalCount == |selected|
      && IsPageCount(r.value.TotalPages, |selected|, pageSize)
    ensures r.Success? ==>
      && r.value.PageIndex == pageIndex && r.value.PageSize == pageSize
      && r.value.SortColumn == sortColumn
      && r.value.FilterColumn == filterColumn && r.value.FilterQuery == filterQuery
      && r.value.SortOrder == (if IsNullOrEmpty(sortColumn) then sortOrder else Some(NormalizedSortOrder(sortOrder)))
    ensures r.Success? ==>
      && (r.value.HasNextPage() <==> (pageIndex + 1) * pageSize < r.value.TotalCount)
      && (r.value.HasPreviousPage() <==> pageIndex > 0)
      && |r.value.Data| <= pageSize
  {
    var src := source;
    var order := sortOrder;
    if !IsNullOrEmpty(sortColumn) {
      var valid := IsValidProperty(schema, sortColumn.value, true);
      if valid.Failure? {
        return Failure(valid.error);
      }
      if valid.value {
        var column := FindProperty(schema, sortColumn.value).value;
        var ascending := IsAscending(order);
        order := if ascending then Some("ASC") else Some("DESC");
        src := OrderBy(src, schema[column].Key, ascending);
      }
    }
    assert src == SortStage(schema, source, sortColumn, sortOrder);
    assert order == if IsNullOrEmpty(sortColumn) then sortOrder else Some(NormalizedSortOrder(sortOrder));
    if !IsNullOrEmpty(filterColumn) {
      var valid := IsValidProperty(schema, filterColumn.value, true);
      if valid.Failure? {
        return Failure(valid.error);
      }
      if valid.value && !IsNullOrEmpty(filterQuery) {
        var column := FindProperty(schema, filterColumn.value).value;
        src := Where(src, PrefixFilter(schema[column].Text, filterQuery.value));
      }
    }
    assert src == Selected(schema, source, sortColumn, sortOrder, filterColumn, filterQuery);
    var count := |src|;
    src := Page(src, pageIndex, pageSize);
    var data := src;
    var envelope := NewApiResult(data, count, pageIndex, pageSize, sortColumn, order, filterColumn, filterQuery);
    HasNextPageIff(envelope);
    r := Success(envelope);
  }

  /**
   * Sorting before filtering, as the builder does, selects the same
   * sequence as filtering before sorting.
   */
  lemma FilterFirstIsEquivalent<T>(schema: Schema<T>, source: seq<T>,
                                   sortColumn: Option<string>, sortOrder: Option<string>,
                                   filterColumn: Option<string>, filterQuery: Option<string>)
    ensures Selected(schema, source, sortColumn, sortOrder, filterColumn, filterQuery)
         == SortStage(schema, FilterStage(schema, source, filterColumn, filterQuery), sortColumn, sortOrder)
  {
    if !IsNullOrEmpty(sortColumn) && FindProperty(schema, sortColumn.value).Some?
      && FilterRequested(filterColumn, filterQuery) && FindProperty(schema, filterColumn.value).Some?
    {
      var i := FindProperty(schema, sortColumn.value).value;
      var j := FindProperty(schema, filterColumn.value).value;
      WhereOrderBy(source, schema[i].Key, IsAscending(sortOrder), PrefixFilter(schema[j].Text, filterQuery.value));
    }
  }

  /**
   * With a sort column in effect, the selected records are ordered by that
   * column, ascending exactly when the order was "asc".
   */
  lemma SelectedIsSorted<T>(schema: Schema<T>, source: seq<T>,
                            sortColumn: Option<string>, sortOrder: Option<string>,
                            filterColumn: Option<string>, filterQuery: Option<string>, i: nat)
    requires !IsNullOrEmpty(sortColumn) && FindProperty(schema, sortColumn.value) == Some(i)
    ensures Sorted(Selected(schema, source, sortColumn, sortOrder, filterColumn, filterQuery),
                   schema[i].Key, NormalizedSortOrder(sortOrder) == "ASC")
  {
    var sorted := OrderBy(source, schema[i].Key, IsAscending(sortOrder));
    OrderBySorted(source, schema[i].Key, IsAscending(sortOrder));
    if FilterRequested(filterColumn, filterQuery) && FindProperty(schema, filterColumn.value).Some? {
      var j := FindProperty(schema, filterColumn.value).value;
      WherePreservesSorted(sorted, schema[i].Key, IsAscending(sortOrder), PrefixFilter(schema[j].Text, filterQuery.value));
    }
  }

  /**
   * With a filter in effect, a record is selected as many times as it occurs
   * in the source when its column starts with the query, and never otherwise.
   */
  lemma SelectedByFilter<T>(schema: Schema<T>, source: seq<T>,
                            sortColumn: Option<string>, sortOrder: Option<string>,
                            filterColumn: Option<string>, filterQuery: Option<string>, j: nat, x: T)
    requires FilterRequested(filterColumn, filterQuery) && FindProperty(schema, filterColumn.value) == Some(j)
    ensures multiset(Selected(schema, source, sortColumn, sortOrder, filterColumn, filterQuery))[x]
         == if StartsWith(schema[j].Text(x), filterQuery.value) then multiset(source)[x] else 0
  {
    var sorted := SortStage(schema, source, sortColumn, sortOrder);
    SortStagePermutes(schema, source, sortColumn, sortOrder);
    WhereMultiplicity(sorted, PrefixFilter(schema[j].Text, filterQuery.value), x);
  }

  /**
   * Without a filter every record is selected: the selection is a
   * permutation of the source, so the total count is the source's length.
   */
  lemma UnfilteredSelectsAll<T>(schema: Schema<T>, source: seq<T>,
                                sortColumn: Option<string>, sortOrder: Option<string>,
                                filterColumn: Option<string>, filterQuery: Option<string>)
    requires !FilterRequested(filterColumn, filterQuery)
    ensures multiset(Selected(schema, source, sortColumn, sortOrder, filterColumn, filterQuery)) == multiset(source)
    ensures |Selected(schema, source, sortColumn, sortOrder, filterColumn, filterQuery)| == |source|
  {
    var selected := Selected(schema, source, sortColumn, sortOrder, filterColumn, filterQuery);
    SortStagePermutes(schema, source, sortColumn, sortOrder);
    assert |multiset(selected)| == |selected|;
    assert |multiset(source)| == |source|;
  }

  /** Without a sort column the source order is kept, and only the filter applies. */
  lemma UnsortedKeepsOrder<T>(schema: Schema<T>, source: seq<T>,
                              sortColumn: Option<string>, sortOrder: Option<string>,
                              filterColumn: Option<string>, filterQuery: Option<string>)
    requires IsNullOrEmpty(sortColumn)
    ensures Selected(schema, source, sortColumn, sortOrder, filterColumn, filterQuery)
         == FilterStage(schema, source, filterColumn, filterQuery)
    ensures !FilterRequested(filterColumn, filterQuery) ==>
            Selected(schema, source, sortColumn, sortOrder, filterColumn, filterQuery) == source
  {
  }
}

/** Worked requests against a small two-column record type. */
module ApiResultExamples {
  import opened Wrappers
  import opened Text
  import opened Linq
  import opened ApiResults

  datatype Row = Row(Name: string, Value: int)

  /**
   * The ordering key of the `Name` column. The database's string collation
   * is abstract in this model; here a name ranks by its length, which is
   * enough for the worked requests below.
   */
  function NameKey(r: Row): int { |r.Name| }
  function NameText(r: Row): string { r.Name }
  function ValueKey(r: Row): int { r.Value }
  /** `Value` is a number column: it carries no text to prefix-match. */
  function ValueText(r: Row): string { "" }

  /** `Name` orders by its length and matches by its text; `Value` orders by its number. */
  function RowSchema(): Schema<Row> {
    [Property("Name", NameKey, NameText), Property("Value", ValueKey, ValueText)]
  }

  lemma FindValueColumn()
    ensures FindProperty(RowSchema(), "value") == Some(1)
  {
    assert ToUpper("Name")[0] == 'N';
    assert ToUpper("value")[0] == 'V';
    assert ToUpper("Value") == "VALUE";
    assert ToUpper("value") == "VALUE";
  }

  lemma FindNameColumn()
    ensures FindProperty(RowSchema(), "name") == Some(0)
  {
    assert ToUpper("Name") == "NAME";
    assert ToUpper("name") == "NAME";
  }

  lemma OrderOne(x: Row, ascending: bool)
    ensures OrderBy([x], ValueKey, ascending) == [x]
  {
    assert [x][1..] == [];
  }

  /** One step of `OrderBy` on a sequence with a known first element. */
  lemma OrderCons(x: Row, s: seq<Row>, ascending: bool)
    ensures OrderBy([x] + s, ValueKey, ascending) == Insert(x, OrderBy(s, ValueKey, ascending), ValueKey, ascending)
  {
    assert ([x] + s)[1..] == s;
  }

  /** `x` moves past a head it may not precede. */
  lemma InsertPast(x: Row, y: Row, rest: seq<Row>, ascending: bool)
    requires !InOrder(x.Value, y.Value, ascending)
    ensures Insert(x, [y] + rest, ValueKey, ascending) == [y] + Insert(x, rest, ValueKey, ascending)
  {
    assert ([y] + rest)[1..] == rest;
  }

  lemma OrderTwo(x: Row, y: Row, ascending: bool)
    ensures OrderBy([x, y], ValueKey, ascending)
         == if InOrder(x.Value, y.Value, ascending) then [x, y] else [y, x]
  {
    OrderCons(x, [y], ascending);
    OrderOne(y, ascending);
    if !InOrder(x.Value, y.Value, ascending) {
      InsertPast(x, y, [], ascending);
      assert Insert(x, [], ValueKey, ascending) == [x];
    }
  }

  /** Sorting by "value", with no filter, orders by `ValueKey`. */
  lemma SortByValue(source: seq<Row>, column: Option<string>, sortOrder: Option<string>)
    requires column == Some("value")
    ensures Selected(RowSchema(), source, column, sortOrder, None, None) == OrderBy(source, ValueKey, IsAscending(sortOrder))
  {
    FindValueColumn();
  }

  lemma AscIsAscending()
    ensures IsAscending(Some("asc"))
  {
    assert ToUpper("asc") == "ASC";
  }

  lemma OrderAscending(a: Row, b: Row, c: Row)
    requires a.Value == 3 && b.Value == 1 && c.Value == 2
    ensures OrderBy([a, b, c], ValueKey, true) == [b, c, a]
  {
    OrderCons(a, [b, c], true);
    OrderTwo(b, c, true);
    InsertPast(a, b, [c], true);
    InsertPast(a, c, [], true);
    assert Insert(a, [], ValueKey, true) == [a];
  }

  lemma OrderDescending(a: Row, b: Row, c: Row)
    requires a.Value == 3 && b.Value == 1 && c.Value == 2
    ensures OrderBy([a, b, c], ValueKey, false) == [a, c, b]
  {
    OrderCons(a, [b, c], false);
    OrderTwo(b, c, false);
  }

  /** Sorting {A:3, B:1, C:2} by value with order "asc" gives B, C, A; with no order, A, C, B. */
  lemma SortDirectionExample(a: Row, b: Row, c: Row, column: Option<string>)
    requires a.Value == 3 && b.Value == 1 && c.Value == 2
    requires column == Some("value")
    ensures Selected(RowSchema(), [a, b, c], column, Some("asc"), None, None) == [b, c, a]
    ensures Selected(RowSchema(), [a, b, c], column, None, None, None) == [a, c, b]
  {
    SortByValue([a, b, c], column, Some("asc"));
    SortByValue([a, b, c], column, None);
    AscIsAscending();
    OrderAscending(a, b, c);
    OrderDescending(a, b, c);
  }

  lemma StartsWithPra()
    ensures StartsWith("Prague", "Pra")
    ensures !StartsWith("Paris", "Pra") && !StartsWith("Lagos", "Pra")
  {
    assert "Prague"[..3] == "Pra";
    assert "Paris"[2] != "Pra"[2];
    assert "Lagos"[0] != "Pra"[0];
  }

  /** Filtering names {Paris, Prague, Lagos} by prefix "Pra" keeps only Prague. */
  lemma PrefixFilterExample()
    ensures Selected(RowSchema(), [Row("Paris", 0), Row("Prague", 0), Row("Lagos", 0)], None, None, Some("name"), Some("Pra"))
         == [Row("Prague", 0)]
  {
    FindNameColumn();
    StartsWithPra();
    var p, q, l := Row("Paris", 0), Row("Prague", 0), Row("Lagos", 0);
    var f := PrefixFilter(NameText, "Pra");
    assert f(p) == StartsWith(NameText(p), "Pra") && NameText(p) == "Paris";
    assert f(q) == StartsWith(NameText(q), "Pra") && NameText(q) == "Prague";
    assert f(l) == StartsWith(NameText(l), "Pra") && NameText(l) == "Lagos";
    assert [p, q, l][1..] == [q, l] && [q, l][1..] == [l] && [l][1..] == [];
    assert Where([l], f) == [];
    assert Where([q, l], f) == [q];
  }

  /**
   * A client of the builder: five records, pages of ten, page 3 requested.
   * The page is empty, there is one page in all and no next page.
   */
  method BeyondLastPage(rows: seq<Row>)
    requires |rows| == 5
  {
    var r := CreateAsync(RowSchema(), rows, 3, 10, None, None, None, None);
    assert r.Success?;
    UnsortedKeepsOrder(RowSchema(), rows, None, None, None, None);
    assert r.value.Data == [] && r.value.TotalCount == 5;
    PageCountUnique(r.value.TotalPages, 1, 5, 10);
    assert r.value.TotalPages == 1 && !r.value.HasNextPage() && r.value.HasPreviousPage();
  }

  lemma DoesNotExistIsUnknown(name: string)
    requires name == "doesNotExist"
    ensures !Declared(RowSchema(), name)
  {
    assert ToUpper(name)[0] == 'D';
  }

  /** A client of the builder: an unknown sort column is an error, not an ignored sort. */
  method UnknownSortColumn(rows: seq<Row>, name: string)
    requires name == "doesNotExist"
  {
    DoesNotExistIsUnknown(name);
    var r := CreateAsync(RowSchema(), rows, 0, 10, Some(name), None, None, None);
    assert r.Failure? && r.error == UnknownProperty(name);
  }
}

/**
 The log export (dockfleet/health/logs.py): keyset-paginated queries, and the generators that print every page as text
 or CSV. Each query reads the table as it is at that moment; other writers may have added rows in between.
 */
module LogExport {
  import opened Wrappers
  import Text

  datatype Key = Key(at: int, id: int) {
    /** Descending order: newer rows come first, and among equal stamps the larger id. */
    predicate Before(other: Key) {
      at > other.at || (at == other.at && id > other.id)
    }
  }

  datatype Row = Row(key: Key, service: string, level: Option<string>, message: Option<string>, source: Option<string>)

  datatype Filter = Filter(service: Option<string>, q: Option<string>) {
    predicate Matches(row: Row) {
      && (service.Some? && service.value != "" ==> Text.Lower(row.service) == Text.Lower(service.value))
      && (q.Some? && q.value != "" ==>
            row.message.Some? && Text.Contains(Text.Lower(row.message.value), Text.Lower(q.value)))
    }
  }

  /** A row belongs to a page that starts after the cursor. */
  predicate Selects(filter: Filter, cursor: Option<Key>, row: Row) {
    filter.Matches(row) && (cursor.Some? ==> cursor.value.Before(row.key))
  }

  function Select(table: seq<Row>, filter: Filter, cursor: Option<Key>): (rows: seq<Row>)
    ensures forall row :: row in rows <==> row in table && Selects(filter, cursor, row)
  {
    if table == [] then []
    else (if Selects(filter, cursor, table[0]) then [table[0]] else []) + Select(table[1..], filter, cursor)
  }

  function Place(row: Row, rows: seq<Row>): seq<Row> {
    if rows == [] then [row]
    else if row.key.Before(rows[0].key) then [row] + rows
    else [rows[0]] + Place(row, rows[1..])
  }

  function Ordered(rows: seq<Row>): seq<Row> {
    if rows == [] then [] else Place(rows[0], Ordered(rows[1..]))
  }

  const MAX_LIMIT: int := 1000

  /** At most a thousand rows; the database takes a negative limit for none. */
  function Limited(rows: seq<Row>, limit: int): seq<Row> {
    var n := if limit > MAX_LIMIT then MAX_LIMIT else limit;
    if 0 <= n <= |rows| then rows[..n] else rows
  }

  function Query(table: seq<Row>, filter: Filter, limit: int, cursor: Option<Key>): seq<Row> {
    Limited(Ordered(Select(table, filter, cursor)), limit)
  }

  // ---------------------------------------------------------------- order

  ghost predicate Descending(rows: seq<Row>) {
    forall i, j | 0 <= i < j < |rows| :: rows[i].key.Before(rows[j].key)
  }

  /** Ids are the primary key. */
  ghost predicate IsTable(table: seq<Row>) {
    forall i, j | 0 <= i < j < |table| :: table[i].key.id != table[j].key.id
  }

  lemma {:induction false} PlaceKeepsOrder(row: Row, rows: seq<Row>)
    requires Descending(rows) && forall i | 0 <= i < |rows| :: rows[i].key != row.key
    ensures Descending(Place(row, rows))
    ensures forall r :: r in Place(row, rows) <==> r == row || r in rows
  {
    if rows != [] && !row.key.Before(rows[0].key) {
      PlaceKeepsOrder(row, rows[1..]);
      var placed := Place(row, rows[1..]);
      forall j | 0 <= j < |placed|
        ensures rows[0].key.Before(placed[j].key)
      {
        assert placed[j] in placed;
      }
    }
  }

  ghost predicate DistinctKeys(rows: seq<Row>) {
    forall i, j | 0 <= i < j < |rows| :: rows[i].key != rows[j].key
  }

  lemma {:induction false} OrderedHasAll(rows: seq<Row>)
    ensures |Ordered(rows)| == |rows|
  {
    if rows != [] {
      OrderedHasAll(rows[1..]);
      PlaceAddsOne(rows[0], Ordered(rows[1..]));
    }
  }

  lemma {:induction false} PlaceAddsOne(row: Row, rows: seq<Row>)
    ensures |Place(row, rows)| == |rows| + 1
  {
    if rows != [] && !row.key.Before(rows[0].key) {
      PlaceAddsOne(row, rows[1..]);
    }
  }

  /** A page is as long as asked for, but for the cap of a thousand rows and the end of the selection. */
  lemma PageLength(table: seq<Row>, filter: Filter, limit: nat, cursor: Option<Key>)
    ensures var page, selected := Query(table, filter, limit, cursor), |Select(table, filter, cursor)|;
            |page| <= limit && |page| <= 1000 && |page| <= selected
            && (|page| == limit || |page| == 1000 || |page| == selected)
  {
    OrderedHasAll(Select(table, filter, cursor));
  }

  lemma {:induction false} OrderedIsDescending(rows: seq<Row>)
    requires DistinctKeys(rows)
    ensures Descending(Ordered(rows))
    ensures forall row :: row in Ordered(rows) <==> row in rows
  {
    if rows != [] {
      OrderedIsDescending(rows[1..]);
      var rest := Ordered(rows[1..]);
      forall i | 0 <= i < |rest|
        ensures rest[i].key != rows[0].key
      {
        assert rest[i] in rows[1..];
      }
      PlaceKeepsOrder(rows[0], rest);
    }
  }

  lemma {:induction false} SelectIsDistinct(table: seq<Row>, filter: Filter, cursor: Option<Key>)
    requires DistinctKeys(table)
    ensures DistinctKeys(Select(table, filter, cursor))
  {
    if table != [] {
      SelectIsDistinct(table[1..], filter, cursor);
      var rest := Select(table[1..], filter, cursor);
      forall i | 0 <= i < |rest|
        ensures rest[i].key != table[0].key
      {
        assert rest[i] in table[1..];
      }
    }
  }

  lemma NonEmptyHasARow(rows: seq<Row>)
    ensures rows != [] ==> exists row :: row in rows
  {
    assert rows != [] ==> rows[0] in rows;
  }

  /** A strictly descending listing is determined by the rows in it. */
  lemma {:induction false} DescendingIsUnique(a: seq<Row>, b: seq<Row>)
    requires Descending(a) && Descending(b)
    requires forall row :: row in a <==> row in b
    ensures a == b
  {
    NonEmptyHasARow(b);
    if a != [] {
      assert a[0] in b && b != [];
      assert b[0] in a;
      assert a[0] == b[0];
      forall row
        ensures row in a[1..] <==> row in b[1..]
      {
        assert row in a[1..] ==> row != a[0] && row in b;
        assert row in b[1..] ==> row != b[0] && row in a;
      }
      DescendingIsUnique(a[1..], b[1..]);
    }
  }

  lemma {:induction false} OnlyOnce(rows: seq<Row>, row: Row)
    requires Descending(rows) && row in rows
    ensures multiset(rows)[row] == 1
  {
    assert rows == [rows[0]] + rows[1..];
    if row == rows[0] {
      assert row !in rows[1..];
      assert multiset(rows[1..])[row] == 0;
    } else {
      OnlyOnce(rows[1..], row);
    }
  }

  /** One query: a strictly descending page, and every selected row not on it comes after its last. */
  lemma QueryIsAPage(table: seq<Row>, filter: Filter, limit: int, cursor: Option<Key>)
    requires IsTable(table)
    ensures var page := Query(table, filter, limit, cursor);
            && Descending(page)
            && (forall row | row in page :: row in table && Selects(filter, cursor, row))
            && (limit != 0 ==> forall row | row in table && Selects(filter, cursor, row) ::
                  row in page || (page != [] && page[|page| - 1].key.Before(row.key)))
  {
    SelectIsDistinct(table, filter, cursor);
    OrderedIsDescending(Select(table, filter, cursor));
    var all := Ordered(Select(table, filter, cursor));
    var page := Query(table, filter, limit, cursor);
    assert page == all[..|page|];
    forall row | row in table && Selects(filter, cursor, row) && limit != 0
      ensures row in page || (page != [] && page[|page| - 1].key.Before(row.key))
    {
      assert row in all;
      var i :| 0 <= i < |all| && all[i] == row;
      assert i < |page| ==> page[i] == row;
    }
  }

  // ---------------------------------------------------------------- all pages

  /** The tables the successive queries see: rows are only added, and the last table stays as it is. */
  ghost predicate Growing(tables: seq<seq<Row>>) {
    && tables != []
    && (forall k | 0 <= k < |tables| :: IsTable(tables[k]))
    && (forall j, k | 0 <= j < k < |tables| :: Extends(tables[j], tables[k]))
  }

  ghost predicate Extends(table: seq<Row>, later: seq<Row>) {
    forall row | row in table :: row in later
  }

  function Next(tables: seq<seq<Row>>): seq<seq<Row>>
    requires tables != []
  {
    if |tables| == 1 then tables else tables[1..]
  }

  lemma {:induction false} LaterCursorSelectsLess(table: seq<Row>, filter: Filter, cursor: Option<Key>, later: Key)
    requires cursor.Some? ==> cursor.value.Before(later)
    ensures |Select(table, filter, Some(later))| <= |Select(table, filter, cursor)|
    ensures (exists row :: row in table && row.key == later && Selects(filter, cursor, row)) ==>
              |Select(table, filter, Some(later))| < |Select(table, filter, cursor)|
  {
    if table != [] {
      LaterCursorSelectsLess(table[1..], filter, cursor, later);
    }
  }

  lemma {:induction false} PlacedAmong(row: Row, rows: seq<Row>)
    ensures forall r :: r in Place(row, rows) <==> r == row || r in rows
  {
    if rows != [] {
      PlacedAmong(row, rows[1..]);
    }
  }

  lemma {:induction false} OrderedHasTheSame(rows: seq<Row>)
    ensures forall row :: row in Ordered(rows) <==> row in rows
  {
    if rows != [] {
      OrderedHasTheSame(rows[1..]);
      PlacedAmong(rows[0], Ordered(rows[1..]));
    }
  }

  /** After a page there is less left to select, whatever the table. */
  lemma PageShrinks(table: seq<Row>, filter: Filter, limit: int, cursor: Option<Key>)
    ensures var page := Query(table, filter, limit, cursor);
            page != [] ==> |Select(table, filter, Some(page[|page| - 1].key))| < |Select(table, filter, cursor)|
  {
    OrderedHasTheSame(Select(table, filter, cursor));
    var page := Query(table, filter, limit, cursor);
    if page != [] {
      var last := page[|page| - 1];
      assert last in Ordered(Select(table, filter, cursor));
      LaterCursorSelectsLess(table, filter, cursor, last.key);
    }
  }

  /** The pages one export reads, each from the next table. */
  function Pages(tables: seq<seq<Row>>, filter: Filter, batch: int, cursor: Option<Key>): (pages: seq<seq<Row>>)
    requires tables != []
    ensures forall i | 0 <= i < |pages| :: pages[i] != []
    decreases |tables|, |Select(tables[0], filter, cursor)|
  {
    var page := Query(tables[0], filter, batch, cursor);
    if page == [] then []
    else
      PageShrinks(tables[0], filter, batch, cursor);
      [page] + Pages(Next(tables), filter, batch, Some(page[|page| - 1].key))
  }

  function Flat(pages: seq<seq<Row>>): seq<Row> {
    if pages == [] then [] else pages[0] + Flat(pages[1..])
  }

  lemma FlatStep(page: seq<Row>, pages: seq<seq<Row>>)
    ensures Flat([page] + pages) == page + Flat(pages)
  {
    assert ([page] + pages)[1..] == pages;
  }

  lemma NextGrows(tables: seq<seq<Row>>)
    requires Growing(tables)
    ensures Growing(Next(tables))
    ensures forall row | row in tables[0] :: row in Next(tables)[0]
    ensures tables[|tables| - 1] == Next(tables)[|Next(tables)| - 1]
  {
    if |tables| > 1 {
      var next := Next(tables);
      assert forall k | 0 <= k < |next| :: next[k] == tables[1..][k];
      assert Extends(tables[0], tables[1]);
    }
  }

  /** What is yielded: strictly descending, and only matching rows of the table as it is at the end. */
  lemma {:induction false} YieldsDescending(tables: seq<seq<Row>>, filter: Filter, batch: int, cursor: Option<Key>)
    requires Growing(tables)
    ensures Descending(Flat(Pages(tables, filter, batch, cursor)))
    ensures forall row | row in Flat(Pages(tables, filter, batch, cursor)) ::
              row in tables[|tables| - 1] && Selects(filter, cursor, row)
    decreases |tables|, |Select(tables[0], filter, cursor)|
  {
    var page := Query(tables[0], filter, batch, cursor);
    QueryIsAPage(tables[0], filter, batch, cursor);
    if page != [] {
      var last := page[|page| - 1].key;
      PageShrinks(tables[0], filter, batch, cursor);
      NextGrows(tables);
      YieldsDescending(Next(tables), filter, batch, Some(last));
      var rest := Flat(Pages(Next(tables), filter, batch, Some(last)));
      FlatStep(page, Pages(Next(tables), filter, batch, Some(last)));
      ConcatDescends(page, rest);
      assert page[|page| - 1] in page;
      forall row | row in page + rest
        ensures row in tables[|tables| - 1] && Selects(filter, cursor, row)
      {
        assert row in page && |tables| > 1 ==> Extends(tables[0], tables[|tables| - 1]);
      }
    }
  }

  lemma ConcatDescends(page: seq<Row>, rest: seq<Row>)
    requires page != [] && Descending(page) && Descending(rest)
    requires forall row | row in rest :: page[|page| - 1].key.Before(row.key)
    ensures Descending(page + rest)
  {
    var all, last := page + rest, page[|page| - 1].key;
    forall i, j | 0 <= i < j < |all|
      ensures all[i].key.Before(all[j].key)
    {
      if i < |page| <= j {
        assert rest[j - |page|] in rest;
        assert last == page[i].key || page[i].key.Before(last);
      }
    }
  }

  /** The first page, and where the next one starts. */
  lemma FirstPage(tables: seq<seq<Row>>, filter: Filter, batch: int, cursor: Option<Key>) returns (later: Option<Key>)
    requires tables != [] && Query(tables[0], filter, batch, cursor) != []
    ensures var page := Query(tables[0], filter, batch, cursor);
            && later == Some(page[|page| - 1].key)
            && Flat(Pages(tables, filter, batch, cursor)) == page + Flat(Pages(Next(tables), filter, batch, later))
  {
    var page := Query(tables[0], filter, batch, cursor);
    later := Some(page[|page| - 1].key);
    FlatStep(page, Pages(Next(tables), filter, batch, later));
  }

  /** No matching row that was there at the start is missed, whatever is added meanwhile. */
  lemma {:induction false} YieldsEverything(tables: seq<seq<Row>>, filter: Filter, batch: int, cursor: Option<Key>,
                                            row: Row)
    requires Growing(tables) && batch != 0
    requires row in tables[0] && Selects(filter, cursor, row)
    ensures row in Flat(Pages(tables, filter, batch, cursor))
    decreases |tables|, |Select(tables[0], filter, cursor)|
  {
    QueryIsAPage(tables[0], filter, batch, cursor);
    var page := Query(tables[0], filter, batch, cursor);
    var later := FirstPage(tables, filter, batch, cursor);
    if row !in page {
      NextGrows(tables);
      PageShrinks(tables[0], filter, batch, cursor);
      YieldsEverything(Next(tables), filter, batch, later, row);
    }
  }

  // ---------------------------------------------------------------- main results

  /** Newer rows come before older ones, and among rows of one time the larger id comes first. */
  ghost predicate NewestFirst(rows: seq<Row>) {
    forall i, j | 0 <= i < j < |rows| ::
      rows[i].key.at >= rows[j].key.at && (rows[i].key.at == rows[j].key.at ==> rows[i].key.id > rows[j].key.id)
  }

  lemma DescendingIsNewestFirst(rows: seq<Row>)
    ensures Descending(rows) <==> NewestFirst(rows)
  {
    forall i, j | 0 <= i < j < |rows|
      ensures var first, second := rows[i].key, rows[j].key;
              first.Before(second) <==> first.at >= second.at && (first.at == second.at ==> first.id > second.id)
    {
    }
  }

  /** While other writers add rows: strictly descending, nothing twice, nothing that was there at the start missed. */
  lemma ExportUnderInserts(tables: seq<seq<Row>>, filter: Filter, batch: int)
    requires Growing(tables)
    ensures var rows := Flat(Pages(tables, filter, batch, None));
            && NewestFirst(rows)
            && (forall row | row in rows ::
                  multiset(rows)[row] == 1 && row in tables[|tables| - 1] && filter.Matches(row))
            && (batch != 0 ==> forall row | row in tables[0] && filter.Matches(row) :: multiset(rows)[row] == 1)
  {
    var rows := Flat(Pages(tables, filter, batch, None));
    YieldsDescending(tables, filter, batch, None);
    DescendingIsNewestFirst(rows);
    forall row | row in rows
      ensures multiset(rows)[row] == 1
    {
      OnlyOnce(rows, row);
    }
    forall row | row in tables[0] && filter.Matches(row) && batch != 0
      ensures multiset(rows)[row] == 1
    {
      YieldsEverything(tables, filter, batch, None, row);
      OnlyOnce(rows, row);
    }
  }

  /** On a table nobody changes, paging is sorting the whole table, for every batch size but zero. */
  lemma PagingIsSorting(table: seq<Row>, filter: Filter, batch: int)
    requires IsTable(table)
    ensures Flat(Pages([table], filter, batch, None)) == Ordered(Select(table, filter, None))
        <==> batch != 0 || Select(table, filter, None) == []
  {
    var rows, all := Flat(Pages([table], filter, batch, None)), Ordered(Select(table, filter, None));
    YieldsDescending([table], filter, batch, None);
    SelectIsDistinct(table, filter, None);
    OrderedIsDescending(Select(table, filter, None));
    if batch != 0 || all == [] {
      forall row
        ensures row in rows <==> row in all
      {
        if row in all && batch != 0 {
          YieldsEverything([table], filter, batch, None, row);
        }
      }
      DescendingIsUnique(rows, all);
    } else {
      assert rows == [];
    }
  }
}

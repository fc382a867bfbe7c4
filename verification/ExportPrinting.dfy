/**
 The two generators of the log export, as text lines and as CSV chunks, and what a CSV reader makes of the whole export.
 How a time stamp is written is left open: `stamp` may be any function.
 */
module ExportPrinting {
  import opened Wrappers
  import opened LogExport
  import Csv
  import Text

  function OrEmpty(text: Option<string>): string {
    if text.Some? then text.value else ""
  }

  function TextLine(row: Row, stamp: int -> string): string {
    "[" + stamp(row.key.at) + "] [" + row.service + "] " + OrEmpty(row.message) + "\n"
  }

  function TextLines(rows: seq<Row>, stamp: int -> string): seq<string> {
    if rows == [] then [] else TextLines(rows[..|rows| - 1], stamp) + [TextLine(rows[|rows| - 1], stamp)]
  }

  const HEADER := ["service_name", "timestamp", "level", "message", "source"]

  const HEADER_LINE := "service_name,timestamp,level,message,source\n"

  function Record(row: Row, stamp: int -> string): seq<string> {
    [row.service, stamp(row.key.at), OrEmpty(row.level), OrEmpty(row.message), OrEmpty(row.source)]
  }

  function Records(rows: seq<Row>, stamp: int -> string): seq<seq<string>> {
    seq(|rows|, i requires 0 <= i < |rows| => Record(rows[i], stamp))
  }

  function CsvChunks(pages: seq<seq<Row>>, stamp: int -> string): seq<string> {
    if pages == [] then []
    else CsvChunks(pages[..|pages| - 1], stamp) + [Csv.Chunk(Records(pages[|pages| - 1], stamp))]
  }

  // ---------------------------------------------------------------- the generators

  /** The pages read so far, and the ones still to come. */
  ghost predicate PagesSoFar(tables: seq<seq<Row>>, filter: Filter, batch: int, done: seq<seq<Row>>,
                             pending: seq<seq<Row>>, cursor: Option<Key>) {
    && tables != [] && pending != []
    && Pages(tables, filter, batch, None) == done + Pages(pending, filter, batch, cursor)
  }

  lemma OnePageMore(tables: seq<seq<Row>>, filter: Filter, batch: int, done: seq<seq<Row>>, pending: seq<seq<Row>>,
                    cursor: Option<Key>, page: seq<Row>)
    requires PagesSoFar(tables, filter, batch, done, pending, cursor)
    requires page == Query(pending[0], filter, batch, cursor) && page != []
    ensures PagesSoFar(tables, filter, batch, done + [page], Next(pending), Some(page[|page| - 1].key))
  {
    var rest := Pages(Next(pending), filter, batch, Some(page[|page| - 1].key));
    assert done + ([page] + rest) == done + [page] + rest;
  }

  /** One query, and what it leaves for the next one. */
  method NextPage(ghost tables: seq<seq<Row>>, filter: Filter, batch: int, ghost done: seq<seq<Row>>,
                  pending: seq<seq<Row>>, cursor: Option<Key>)
    returns (page: seq<Row>, rest: seq<seq<Row>>, last: Option<Key>)
    requires PagesSoFar(tables, filter, batch, done, pending, cursor)
    ensures page == [] ==> Pages(tables, filter, batch, None) == done
    ensures page != [] ==> PagesSoFar(tables, filter, batch, done + [page], rest, last)
    ensures page != [] ==>
              || |rest| < |pending|
              || (|rest| == |pending| && |Select(rest[0], filter, last)| < |Select(pending[0], filter, cursor)|)
  {
    page, rest, last := Query(pending[0], filter, batch, cursor), pending, cursor;
    if page == [] {
      assert done + [] == done;
    } else {
      PageShrinks(pending[0], filter, batch, cursor);
      OnePageMore(tables, filter, batch, done, pending, cursor, page);
      rest, last := Next(pending), Some(page[|page| - 1].key);
    }
  }

  lemma {:induction false} FlatAppend(pages: seq<seq<Row>>, page: seq<Row>)
    ensures Flat(pages + [page]) == Flat(pages) + page
  {
    if pages == [] {
      assert Flat([page]) == page + Flat([]);
    } else {
      assert (pages + [page])[1..] == pages[1..] + [page];
      FlatAppend(pages[1..], page);
    }
  }

  lemma {:induction false} TextLinesConcat(a: seq<Row>, b: seq<Row>, stamp: int -> string)
    ensures TextLines(a + b, stamp) == TextLines(a, stamp) + TextLines(b, stamp)
  {
    if b == [] {
      assert a + b == a;
    } else {
      TextLinesConcat(a, b[..|b| - 1], stamp);
      assert (a + b)[..|a + b| - 1] == a + b[..|b| - 1];
    }
  }

  lemma TextLinesStep(page: seq<Row>, i: nat, stamp: int -> string)
    requires i < |page|
    ensures TextLines(page[..i + 1], stamp) == TextLines(page[..i], stamp) + [TextLine(page[i], stamp)]
  {
    assert page[..i + 1][..i] == page[..i];
  }

  method PageAsText(page: seq<Row>, stamp: int -> string) returns (lines: seq<string>)
    ensures lines == TextLines(page, stamp)
  {
    lines := [];
    for i := 0 to |page|
      invariant lines == TextLines(page[..i], stamp)
    {
      TextLinesStep(page, i, stamp);
      lines := lines + [TextLine(page[i], stamp)];
    }
    assert page[..|page|] == page;
  }

  method IterLogsAsText(tables: seq<seq<Row>>, filter: Filter, batch: int, stamp: int -> string)
    returns (lines: seq<string>)
    requires tables != []
    ensures lines == TextLines(Flat(Pages(tables, filter, batch, None)), stamp)
  {
    lines := [];
    var pending, cursor := tables, None;
    ghost var done: seq<seq<Row>> := [];
    while true
      invariant PagesSoFar(tables, filter, batch, done, pending, cursor)
      invariant lines == TextLines(Flat(done), stamp)
      decreases |pending|, |Select(pending[0], filter, cursor)|
    {
      var page, rest, last := NextPage(tables, filter, batch, done, pending, cursor);
      if page == [] {
        break;
      }
      var more := PageAsText(page, stamp);
      lines := lines + more;
      TextLinesConcat(Flat(done), page, stamp);
      FlatAppend(done, page);
      done := done + [page];
      pending, cursor := rest, last;
    }
  }

  lemma CsvLinesStep(page: seq<Row>, i: nat, stamp: int -> string)
    requires i < |page|
    ensures Csv.Lines(Records(page[..i + 1], stamp))
        == Csv.Lines(Records(page[..i], stamp)) + [Csv.Line(Record(page[i], stamp))]
  {
    assert Records(page[..i + 1], stamp) == Records(page[..i], stamp) + [Record(page[i], stamp)];
  }

  lemma CsvChunksStep(pages: seq<seq<Row>>, page: seq<Row>, stamp: int -> string)
    ensures CsvChunks(pages + [page], stamp) == CsvChunks(pages, stamp) + [Csv.Chunk(Records(page, stamp))]
  {
    assert (pages + [page])[..|pages + [page]| - 1] == pages;
  }

  lemma {:induction false} CsvChunksFirst(pages: seq<seq<Row>>, stamp: int -> string)
    requires pages != []
    ensures CsvChunks(pages, stamp) == [Csv.Chunk(Records(pages[0], stamp))] + CsvChunks(pages[1..], stamp)
  {
    var n := |pages| - 1;
    if n > 0 {
      CsvChunksFirst(pages[..n], stamp);
      assert pages[..n][1..] == pages[1..][..n - 1];
    }
  }

  method PageAsCsv(page: seq<Row>, stamp: int -> string) returns (chunk: string)
    ensures chunk == Csv.Chunk(Records(page, stamp))
  {
    var lines: seq<string> := [];
    for i := 0 to |page|
      invariant lines == Csv.Lines(Records(page[..i], stamp))
    {
      CsvLinesStep(page, i, stamp);
      lines := lines + [Csv.Line(Record(page[i], stamp))];
    }
    assert page[..|page|] == page;
    chunk := Csv.Join(lines, "\n") + "\n";
  }

  method IterLogsAsCsv(tables: seq<seq<Row>>, filter: Filter, batch: int, stamp: int -> string)
    returns (chunks: seq<string>)
    requires tables != []
    ensures chunks == [HEADER_LINE] + CsvChunks(Pages(tables, filter, batch, None), stamp)
  {
    chunks := [HEADER_LINE];
    var pending, cursor := tables, None;
    ghost var done: seq<seq<Row>> := [];
    while true
      invariant PagesSoFar(tables, filter, batch, done, pending, cursor)
      invariant chunks == [HEADER_LINE] + CsvChunks(done, stamp)
      decreases |pending|, |Select(pending[0], filter, cursor)|
    {
      var page, rest, last := NextPage(tables, filter, batch, done, pending, cursor);
      if page == [] {
        break;
      }
      var chunk := PageAsCsv(page, stamp);
      chunks := chunks + [chunk];
      CsvChunksStep(done, page, stamp);
      done := done + [page];
      pending, cursor := rest, last;
    }
  }

  // ---------------------------------------------------------------- reading the export back

  lemma {:induction false} ConcatFirst(chunk: string, chunks: seq<string>)
    ensures Csv.Concat([chunk] + chunks) == chunk + Csv.Concat(chunks)
  {
    if chunks == [] {
      assert Csv.Concat([chunk]) == Csv.Concat([]) + chunk;
    } else {
      var n := |chunks| - 1;
      assert ([chunk] + chunks)[..n + 1] == [chunk] + chunks[..n];
      ConcatFirst(chunk, chunks[..n]);
    }
  }

  lemma RecordsConcat(a: seq<Row>, b: seq<Row>, stamp: int -> string)
    ensures Records(a + b, stamp) == Records(a, stamp) + Records(b, stamp)
  {
  }

  lemma {:induction false} ChunksRoundTrip(pages: seq<seq<Row>>, stamp: int -> string)
    requires forall i | 0 <= i < |pages| :: pages[i] != []
    ensures Csv.ReadFile(Csv.Concat(CsvChunks(pages, stamp))) == Some(Records(Flat(pages), stamp))
  {
    if pages == [] {
      assert Records(Flat(pages), stamp) == [];
    } else {
      var chunk, rest := Csv.Chunk(Records(pages[0], stamp)), CsvChunks(pages[1..], stamp);
      ChunksRoundTrip(pages[1..], stamp);
      CsvChunksFirst(pages, stamp);
      ConcatFirst(chunk, rest);
      Csv.ChunkRoundTrip(Records(pages[0], stamp), Csv.Concat(rest), Records(Flat(pages[1..]), stamp));
      RecordsConcat(pages[0], Flat(pages[1..]), stamp);
    }
  }

  lemma OneMoreField(text: string, texts: seq<string>, line: string)
    requires texts != [] && Csv.Line(texts) == line && !Csv.NeedsQuotes(text)
    ensures Csv.Line([text] + texts) == text + "," + line
  {
    assert Csv.Fields([text] + texts)[1..] == Csv.Fields(texts);
  }

  lemma LastFields()
    ensures Csv.Line(["level", "message", "source"]) == "level,message,source"
  {
    LastTwoFields();
    OneMoreField("level", ["message", "source"], "message,source");
    assert "level" + "," + "message,source" == "level,message,source";
    assert ["level"] + ["message", "source"] == ["level", "message", "source"];
  }

  lemma LastTwoFields()
    ensures Csv.Line(["message", "source"]) == "message,source"
  {
    assert Csv.Fields(["source"]) == ["source"];
    OneMoreField("message", ["source"], "source");
  }

  lemma LastFourFields()
    ensures Csv.Line(["timestamp"] + ["level", "message", "source"]) == "timestamp" + "," + "level,message,source"
  {
    LastFields();
    OneMoreField("timestamp", ["level", "message", "source"], "level,message,source");
  }

  lemma FirstFields()
    ensures Csv.Line(["service_name"] + (["timestamp"] + ["level", "message", "source"]))
         == "service_name" + "," + ("timestamp" + "," + "level,message,source")
  {
    LastFourFields();
    OneMoreField("service_name", ["timestamp"] + ["level", "message", "source"],
                 "timestamp" + "," + "level,message,source");
  }

  lemma HeaderText()
    ensures "service_name" + "," + ("timestamp" + "," + "level,message,source") + "\n" == HEADER_LINE
  {
  }

  lemma HeaderIsARecord()
    ensures HEADER_LINE == Csv.Line(HEADER) + "\n"
  {
    FirstFields();
    assert ["service_name"] + (["timestamp"] + ["level", "message", "source"]) == HEADER;
    HeaderText();
  }

  lemma HeaderThen(rest: string)
    ensures HEADER_LINE + rest == Csv.Line(HEADER) + ("\n" + rest)
  {
    HeaderIsARecord();
    LineThen(HEADER_LINE, Csv.Line(HEADER), rest);
  }

  lemma LineThen(header: string, line: string, rest: string)
    requires header == line + "\n"
    ensures header + rest == line + ("\n" + rest)
  {
  }

  /** Reading the whole export gives the header and then the five fields of every row, for all rows and all strings. */
  lemma ExportRoundTrip(pages: seq<seq<Row>>, stamp: int -> string)
    requires forall i | 0 <= i < |pages| :: pages[i] != []
    ensures Csv.ReadFile(Csv.Concat([HEADER_LINE] + CsvChunks(pages, stamp)))
         == Some([HEADER] + Records(Flat(pages), stamp))
  {
    var body := Csv.Concat(CsvChunks(pages, stamp));
    ChunksRoundTrip(pages, stamp);
    ConcatFirst(HEADER_LINE, CsvChunks(pages, stamp));
    HeaderThen(body);
    Csv.FileStep(HEADER_LINE + body, HEADER, body, Records(Flat(pages), stamp));
  }

  /** Equal CSV texts come from rows with equal fields, however they were split into pages. */
  lemma PrintingIsInjective(a: seq<seq<Row>>, b: seq<seq<Row>>, stamp: int -> string)
    requires forall i | 0 <= i < |a| :: a[i] != []
    requires forall i | 0 <= i < |b| :: b[i] != []
    requires Csv.Concat([HEADER_LINE] + CsvChunks(a, stamp)) == Csv.Concat([HEADER_LINE] + CsvChunks(b, stamp))
    ensures Records(Flat(a), stamp) == Records(Flat(b), stamp)
  {
    ExportRoundTrip(a, stamp);
    ExportRoundTrip(b, stamp);
    assert ([HEADER] + Records(Flat(a), stamp))[1..] == Records(Flat(a), stamp);
    assert ([HEADER] + Records(Flat(b), stamp))[1..] == Records(Flat(b), stamp);
  }

  /**
   End to end: on a table nobody changes, what the CSV generator yields is read back as the header and then the five
   fields of every matching row, newest first, for every batch size but zero.
   */
  method ExportAndReadBack(table: seq<Row>, filter: Filter, batch: int, stamp: int -> string)
    returns (chunks: seq<string>, records: Option<seq<seq<string>>>)
    requires IsTable(table) && batch != 0
    ensures records == Csv.ReadFile(Csv.Concat(chunks))
    ensures records == Some([HEADER] + Records(Ordered(Select(table, filter, None)), stamp))
  {
    chunks := IterLogsAsCsv([table], filter, batch, stamp);
    records := Csv.ReadFile(Csv.Concat(chunks));
    ExportRoundTrip(Pages([table], filter, batch, None), stamp);
    PagingIsSorting(table, filter, batch);
  }

  // ---------------------------------------------------------------- which field is where

  /** The field of a row that a column of the export is named after; a missing one is empty. */
  function FieldNamed(row: Row, name: string, stamp: int -> string): Option<string> {
    if name == "service_name" then Some(row.service)
    else if name == "timestamp" then Some(stamp(row.key.at))
    else if name == "level" then Some(match row.level case Some(level) => level case None => "")
    else if name == "message" then Some(match row.message case Some(message) => message case None => "")
    else if name == "source" then Some(match row.source case Some(source) => source case None => "")
    else None
  }

  lemma RecordFields(row: Row, column: nat, stamp: int -> string)
    requires column < 5
    ensures |HEADER| == 5 == |Record(row, stamp)|
    ensures FieldNamed(row, HEADER[column], stamp) == Some(Record(row, stamp)[column])
  {
    assert column == 0 || column == 1 || column == 2 || column == 3 || column == 4;
  }

  /**
   In the text read back, the header is the documented one, and the field in each column of a row is the one that the
   header names there.
   */
  lemma ColumnsAreNamed(pages: seq<seq<Row>>, stamp: int -> string, i: nat, column: nat)
    requires (forall k | 0 <= k < |pages| :: pages[k] != []) && i < |Flat(pages)| && column < 5
    ensures var read := Csv.ReadFile(Csv.Concat([HEADER_LINE] + CsvChunks(pages, stamp)));
            && read.Some? && |read.value| == |Flat(pages)| + 1
            && read.value[0] == ["service_name", "timestamp", "level", "message", "source"]
            && |read.value[i + 1]| == 5
            && FieldNamed(Flat(pages)[i], read.value[0][column], stamp) == Some(read.value[i + 1][column])
  {
    ExportRoundTrip(pages, stamp);
    RecordFields(Flat(pages)[i], column, stamp);
    var all := [HEADER] + Records(Flat(pages), stamp);
    assert all[0] == HEADER && all[i + 1] == Record(Flat(pages)[i], stamp);
  }

  lemma TwoBrackets(a: string, b: string, c: string)
    requires ']' !in a && ']' !in b
    ensures var line := a + "]" + (b + "]" + c);
            var rest := Text.After(line, ']');
            Text.Before(line, ']') == a && Text.Before(rest, ']') == b && Text.After(rest, ']') == c
  {
    Text.BeforeFirst(a, ']', b + "]" + c);
    Text.BeforeFirst(b, ']', c);
  }

  lemma TextLineParts(row: Row, stamp: int -> string)
    ensures TextLine(row, stamp)
         == ("[" + stamp(row.key.at)) + "]" + ((" [" + row.service) + "]" + (" " + OrEmpty(row.message) + "\n"))
  {
  }

  /**
   A text line can be taken apart again: the stamp up to the first closing bracket, the service up to the next one, and
   the message, without its line feed, when neither stamp nor service has such a bracket.
   */
  lemma TextLineReadsBack(row: Row, stamp: int -> string)
    requires ']' !in stamp(row.key.at) && ']' !in row.service
    ensures var line := TextLine(row, stamp);
            var first, rest := Text.Before(line, ']'), Text.After(line, ']');
            var second, message := Text.Before(rest, ']'), Text.After(rest, ']');
            && first == "[" + stamp(row.key.at) && second == " [" + row.service
            && message == " " + (match row.message case Some(text) => text case None => "") + "\n"
  {
    TextLineParts(row, stamp);
    TwoBrackets("[" + stamp(row.key.at), " [" + row.service, " " + OrEmpty(row.message) + "\n");
  }

}

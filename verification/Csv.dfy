/**
 CSV printing of the log export (dockfleet/health/logs.py, `_csv_field` and `iter_logs_as_csv`) and the reader it is
 for: section 2 of RFC 4180 with a line feed as the line break.
 */
module Csv {
  import opened Wrappers

  // ---------------------------------------------------------------- printing

  predicate NeedsQuotes(text: string) {
    exists i | 0 <= i < |text| :: IsSpecial(text[i])
  }

  predicate IsSpecial(c: char) {
    c == '"' || c == ',' || c == '\n' || c == '\r'
  }

  function Doubled(text: string): string {
    if text == "" then ""
    else (if text[0] == '"' then "\"\"" else [text[0]]) + Doubled(text[1..])
  }

  function Field(text: string): string {
    if NeedsQuotes(text) then "\"" + Doubled(text) + "\"" else text
  }

  function Join(parts: seq<string>, separator: string): string {
    if parts == [] then ""
    else if |parts| == 1 then parts[0]
    else parts[0] + separator + Join(parts[1..], separator)
  }

  function Fields(texts: seq<string>): seq<string> {
    seq(|texts|, i requires 0 <= i < |texts| => Field(texts[i]))
  }

  function Line(texts: seq<string>): string {
    Join(Fields(texts), ",")
  }

  function Lines(records: seq<seq<string>>): seq<string> {
    seq(|records|, i requires 0 <= i < |records| => Line(records[i]))
  }

  /** What is yielded for one batch of rows. */
  function Chunk(records: seq<seq<string>>): string {
    Join(Lines(records), "\n") + "\n"
  }

  function Concat(chunks: seq<string>): string {
    if chunks == [] then "" else Concat(chunks[..|chunks| - 1]) + chunks[|chunks| - 1]
  }

  // ---------------------------------------------------------------- reading

  datatype Read<T> = Done(value: T, rest: string) | Malformed

  /** The rest of an escaped field, after its opening quote. */
  function ReadQuoted(text: string): (r: Read<string>)
    ensures r.Done? ==> |r.rest| < |text|
  {
    if text == "" then Malformed
    else if text[0] != '"' then
      match ReadQuoted(text[1..])
      case Done(value, rest) => Done([text[0]] + value, rest)
      case Malformed => Malformed
    else if |text| > 1 && text[1] == '"' then
      match ReadQuoted(text[2..])
      case Done(value, rest) => Done("\"" + value, rest)
      case Malformed => Malformed
    else Done("", text[1..])
  }

  /** A field without quotes; a bare quote or carriage return is no text data. */
  function ReadPlain(text: string): (r: Read<string>)
    ensures r.Done? ==> |r.rest| <= |text|
  {
    if text == "" || text[0] == ',' || text[0] == '\n' then Done("", text)
    else if IsSpecial(text[0]) then Malformed
    else
      match ReadPlain(text[1..])
      case Done(value, rest) => Done([text[0]] + value, rest)
      case Malformed => Malformed
  }

  function ReadField(text: string): (r: Read<string>)
    ensures r.Done? ==> |r.rest| <= |text|
  {
    if text != "" && text[0] == '"' then ReadQuoted(text[1..]) else ReadPlain(text)
  }

  /** One record, with its line break if it has one. */
  function ReadRecord(text: string): (r: Read<seq<string>>)
    ensures r.Done? ==> |r.rest| <= |text| && (text != "" ==> |r.rest| < |text|)
    decreases |text|
  {
    match ReadField(text)
    case Malformed => Malformed
    case Done(value, rest) =>
      if rest == "" then Done([value], "")
      else if rest[0] == '\n' then Done([value], rest[1..])
      else if rest[0] != ',' then Malformed
      else
        match ReadRecord(rest[1..])
        case Malformed => Malformed
        case Done(values, rest) => Done([value] + values, rest)
  }

  function ReadFile(text: string): Option<seq<seq<string>>>
    decreases |text|
  {
    if text == "" then Some([])
    else
      match ReadRecord(text)
      case Malformed => None
      case Done(record, rest) =>
        match ReadFile(rest)
        case None => None
        case Some(records) => Some([record] + records)
  }

  /** A field is written as it is exactly when it has no comma, quote or line break in it. */
  lemma QuotedOnlyWhenNeeded(text: string)
    ensures Field(text) == text <==> '"' !in text && ',' !in text && '\n' !in text && '\r' !in text
  {
    if NeedsQuotes(text) {
      DoubledIsLonger(text);
      assert |Field(text)| > |text|;
      var i :| 0 <= i < |text| && IsSpecial(text[i]);
      assert text[i] in text;
    } else if '"' in text || ',' in text || '\n' in text || '\r' in text {
      assert NeedsQuotes(text);
    }
  }

  lemma {:induction false} DoubledIsLonger(text: string)
    ensures |Doubled(text)| >= |text|
  {
    if text != "" {
      DoubledIsLonger(text[1..]);
    }
  }

  // ---------------------------------------------------------------- round trip

  lemma ReadsDoubledQuote(more: string)
    requires ReadQuoted(more).Done?
    ensures ReadQuoted("\"\"" + more) == Done("\"" + ReadQuoted(more).value, ReadQuoted(more).rest)
  {
    assert ("\"\"" + more)[2..] == more;
  }

  lemma ReadsOtherChar(c: char, more: string)
    requires c != '"' && ReadQuoted(more).Done?
    ensures ReadQuoted([c] + more) == Done([c] + ReadQuoted(more).value, ReadQuoted(more).rest)
  {
    assert ([c] + more)[1..] == more;
  }

  lemma ReadsClosingQuote(rest: string)
    requires rest == "" || rest[0] != '"'
    ensures ReadQuoted("\"" + rest) == Done("", rest)
  {
    assert ("\"" + rest)[1..] == rest;
  }

  lemma {:induction false} QuotedRoundTrip(text: string, rest: string)
    requires rest == "" || rest[0] != '"'
    ensures ReadQuoted(Doubled(text) + ("\"" + rest)) == Done(text, rest)
  {
    var end := "\"" + rest;
    if text == "" {
      assert Doubled(text) + end == end;
      ReadsClosingQuote(rest);
    } else {
      var head, tail, more := text[0], text[1..], Doubled(text[1..]) + end;
      QuotedRoundTrip(tail, rest);
      assert text == [head] + tail;
      if head == '"' {
        ReadsDoubledQuote(more);
        assert Doubled(text) + end == "\"\"" + more;
      } else {
        ReadsOtherChar(head, more);
        assert Doubled(text) + end == [head] + more;
      }
    }
  }

  lemma {:induction false} PlainRoundTrip(text: string, rest: string)
    requires !NeedsQuotes(text)
    requires rest == "" || rest[0] == ',' || rest[0] == '\n'
    ensures ReadPlain(text + rest) == Done(text, rest)
  {
    if text == "" {
      assert text + rest == rest;
    } else {
      assert (text + rest)[1..] == text[1..] + rest;
      PlainRoundTrip(text[1..], rest);
      assert text == [text[0]] + text[1..];
      assert !IsSpecial(text[0]);
    }
  }

  lemma QuotedFieldRoundTrip(text: string, rest: string)
    requires rest == "" || rest[0] != '"'
    ensures ReadField("\"" + Doubled(text) + "\"" + rest) == Done(text, rest)
  {
    var inner := Doubled(text) + ("\"" + rest);
    QuotedRoundTrip(text, rest);
    OpeningQuote(inner);
    Regrouped("\"", Doubled(text), "\"", rest);
  }

  lemma Regrouped(a: string, b: string, c: string, d: string)
    ensures a + b + c + d == a + (b + (c + d))
  {
  }

  lemma OpeningQuote(inner: string)
    ensures ReadField("\"" + inner) == ReadQuoted(inner)
  {
    assert ("\"" + inner)[1..] == inner;
  }

  lemma PlainFieldRoundTrip(text: string, rest: string)
    requires !NeedsQuotes(text)
    requires rest == "" || rest[0] == ',' || rest[0] == '\n'
    ensures ReadField(text + rest) == Done(text, rest)
  {
    assert text != "" ==> !IsSpecial(text[0]);
    PlainRoundTrip(text, rest);
  }

  lemma FieldRoundTrip(text: string, rest: string)
    requires rest == "" || rest[0] == ',' || rest[0] == '\n'
    ensures ReadField(Field(text) + rest) == Done(text, rest)
  {
    if NeedsQuotes(text) {
      QuotedFieldRoundTrip(text, rest);
    } else {
      PlainFieldRoundTrip(text, rest);
    }
  }

  lemma {:induction false} RecordRoundTrip(texts: seq<string>, rest: string)
    requires texts != []
    ensures ReadRecord(Line(texts) + ("\n" + rest)) == Done(texts, rest)
  {
    var end := "\n" + rest;
    assert Fields(texts)[1..] == Fields(texts[1..]);
    if |texts| == 1 {
      assert Line(texts) == Field(texts[0]);
      FieldRoundTrip(texts[0], end);
      assert end[1..] == rest;
      assert texts == [texts[0]];
    } else {
      var more := Line(texts[1..]) + end;
      assert Line(texts) + end == Field(texts[0]) + ("," + more);
      FieldRoundTrip(texts[0], "," + more);
      assert ("," + more)[1..] == more;
      RecordRoundTrip(texts[1..], rest);
      assert texts == [texts[0]] + texts[1..];
    }
  }

  lemma FileStep(text: string, record: seq<string>, rest: string, records: seq<seq<string>>)
    requires record != [] && text == Line(record) + ("\n" + rest) && ReadFile(rest) == Some(records)
    ensures ReadFile(text) == Some([record] + records)
  {
    RecordRoundTrip(record, rest);
  }

  /** A chunk is its first record's line and the chunk of the others. */
  lemma ChunkStep(records: seq<seq<string>>, rest: string)
    requires records != []
    ensures Chunk(records) + rest
         == Line(records[0]) + ("\n" + (if |records| == 1 then rest else Chunk(records[1..]) + rest))
  {
    assert Lines(records)[1..] == Lines(records[1..]);
  }

  /** Every record ends with its own line feed, so what follows a chunk starts a new record. */
  lemma {:induction false} ChunkRoundTrip(records: seq<seq<string>>, rest: string, others: seq<seq<string>>)
    requires records != [] && forall i | 0 <= i < |records| :: records[i] != []
    requires ReadFile(rest) == Some(others)
    ensures ReadFile(Chunk(records) + rest) == Some(records + others)
  {
    ChunkStep(records, rest);
    if |records| == 1 {
      FileStep(Chunk(records) + rest, records[0], rest, others);
      assert records == [records[0]];
    } else {
      ChunkRoundTrip(records[1..], rest, others);
      FileStep(Chunk(records) + rest, records[0], Chunk(records[1..]) + rest, records[1..] + others);
      assert [records[0]] + (records[1..] + others) == records + others;
    }
  }
}

/** The server-sent-event text both relays write and both ends read: one
    `data: <json>` line per record, each followed by a blank line. */
module Wire {
  import opened Strings
  import opened Json

  /** `chunk.split('\n').filter(line => line.trim())`: the non-blank lines
      of one chunk, read without regard to the chunks around it. */
  function Lines(chunk: string): seq<string> {
    NonBlank(Split(chunk, '\n'))
  }

  /** The lines of each chunk, each chunk split on its own: a line cut
      across two chunks is not put back together. */
  function ChunkLines(chunks: seq<string>): (r: seq<seq<string>>)
    ensures |r| == |chunks|
    ensures forall k :: 0 <= k < |chunks| ==> r[k] == Lines(chunks[k])
  {
    if chunks == [] then [] else [Lines(chunks[0])] + ChunkLines(chunks[1..])
  }

  const DataPrefix: string := "data: "

  /** `line.startsWith('data: ')`. */
  predicate IsDataLine(line: string) {
    StartsWith(line, DataPrefix)
  }

  /** `line.slice(6)` of a data line. */
  function Payload(line: string): string
    requires IsDataLine(line)
  {
    line[|DataPrefix|..]
  }

  /** `res.write(`data: ${record}\n\n`)`. */
  function Frame(record: string): string {
    DataPrefix + record + "\n\n"
  }

  /** Several records written one after the other. */
  function Frames(records: seq<string>): string {
    if records == [] then [] else Frame(records[0]) + Frames(records[1..])
  }

  /** The data lines a reader sees for the given records. */
  function DataLines(records: seq<string>): (lines: seq<string>)
    ensures |lines| == |records|
  {
    if records == [] then [] else [DataPrefix + records[0]] + DataLines(records[1..])
  }

  /** The literal terminal record, with its spaces. */
  const DoneRecord: string := "{\"content\": \"\", \"done\": true}"

  /** `JSON.stringify({ content, done: false })` for a defined `content`
      (see `ContentRecordWritten`). */
  function ContentRecord(content: Value): string {
    "{\"content\":" + Stringify(content) + ",\"done\":false}"
  }

  /** `JSON.stringify({ error: 'Stream processing failed', done: true })`
      (see `ErrorRecordWritten`). */
  const ErrorRecord: string := "{\"error\":" + "\"Stream processing failed\"" + ",\"done\":true}"

  /** The quoted form of a key made of plain characters. */
  lemma QuotePlainKey(key: string)
    requires forall i :: 0 <= i < |key| ==> Plain(key[i])
    ensures Quote(key) == "\"" + key + "\""
  {
    EscapePlain(key);
  }

  /** `ContentRecord` is what `JSON.stringify` writes for the object. */
  lemma ContentRecordWritten(content: Value, k1: string, k2: string)
    requires content != Undefined && k1 == "content" && k2 == "done"
    ensures ContentRecord(content) == Stringify(Obj([Field(k1, content), Field(k2, Bool(false))]))
  {
    QuotePlainKey(k1);
    QuotePlainKey(k2);
    TwoFieldsWritten(Field(k1, content), Field(k2, Bool(false)));
    ContentText(content, Quote(k1), Quote(k2));
  }

  lemma ContentText(v: Value, q1: string, q2: string)
    requires q1 == "\"" + "content" + "\"" && q2 == "\"" + "done" + "\""
    ensures ContentRecord(v) == "{" + (q1 + ":" + Stringify(v)) + "," + (q2 + ":" + "false") + "}"
  {
    assert "{" + q1 + ":" == "{\"content\":";
    assert "," + q2 + ":" + "false" + "}" == ",\"done\":false}";
    Regroup(q1, Stringify(v), q2, "false");
  }

  lemma Regroup(q1: string, s: string, q2: string, t: string)
    ensures "{" + (q1 + ":" + s) + "," + (q2 + ":" + t) + "}" == ("{" + q1 + ":") + s + ("," + q2 + ":" + t + "}")
  {
  }

  /** `ErrorRecord` is what `JSON.stringify` writes for the object. */
  lemma ErrorRecordWritten(k1: string, m: string, k2: string)
    requires k1 == "error" && m == "Stream processing failed" && k2 == "done"
    ensures ErrorRecord == Stringify(Obj([Field(k1, Str(m)), Field(k2, Bool(true))]))
  {
    var f, g := Field(k1, Str(m)), Field(k2, Bool(true));
    TwoFieldsWritten(f, g);
    ErrorQuotes(k1, m, k2);
    ErrorText(Quote(k1), Quote(m), Quote(k2));
    ErrorMembers(f, g, Quote(k1), Quote(m), Quote(k2));
  }

  lemma ErrorQuotes(k1: string, m: string, k2: string)
    requires k1 == "error" && m == "Stream processing failed" && k2 == "done"
    ensures Quote(k1) == "\"" + "error" + "\"" && Quote(k2) == "\"" + "done" + "\""
    ensures Quote(m) == "\"" + "Stream processing failed" + "\""
  {
    QuoteErrorKey(k1);
    QuoteErrorMessage(m);
    QuoteDoneKey(k2);
  }

  lemma QuoteErrorKey(k: string)
    requires k == "error"
    ensures Quote(k) == "\"" + "error" + "\""
  {
    QuotePlainKey(k);
  }

  lemma QuoteErrorMessage(m: string)
    requires m == "Stream processing failed"
    ensures Quote(m) == "\"" + "Stream processing failed" + "\""
  {
    QuotePlainKey(m);
  }

  lemma QuoteDoneKey(k: string)
    requires k == "done"
    ensures Quote(k) == "\"" + "done" + "\""
  {
    QuotePlainKey(k);
  }

  lemma ErrorMembers(f: Field, g: Field, q1: string, m: string, q2: string)
    requires f.value.Str? && q1 == Quote(f.key) && m == Quote(f.value.s)
    requires g.value == Bool(true) && q2 == Quote(g.key)
    ensures "{" + Member(f) + "," + Member(g) + "}" == "{" + (q1 + ":" + m) + "," + (q2 + ":" + "true") + "}"
  {
  }

  lemma ErrorText(q1: string, m: string, q2: string)
    requires q1 == "\"" + "error" + "\"" && q2 == "\"" + "done" + "\""
    requires m == "\"" + "Stream processing failed" + "\""
    ensures ErrorRecord == "{" + (q1 + ":" + m) + "," + (q2 + ":" + "true") + "}"
  {
    assert "{" + q1 + ":" == "{\"error\":";
    assert "," + q2 + ":" + "true" + "}" == ",\"done\":true}";
    assert m == "\"Stream processing failed\"";
    Regroup(q1, m, q2, "true");
  }

  lemma ContentRecordPrintable(content: Value)
    ensures Printable(ContentRecord(content))
  {
    StringifyPrintable(content);
  }

  lemma ErrorRecordPrintable()
    ensures Printable(ErrorRecord)
  {
    ErrorRecordWritten("error", "Stream processing failed", "done");
    StringifyPrintable(Obj([Field("error", Str("Stream processing failed")), Field("done", Bool(true))]));
  }

  lemma DoneRecordPrintable()
    ensures Printable(DoneRecord)
  {
  }

  /** A data line is never blank. */
  lemma DataLineNotBlank(record: string)
    ensures !Blank(DataPrefix + record)
  {
    assert (DataPrefix + record)[0] == 'd';
  }

  /** The text of one record, read before whatever follows it. */
  lemma FrameThenRest(record: string, rest: string)
    requires Printable(record)
    ensures Lines(Frame(record) + rest) == [DataPrefix + record] + Lines(rest)
  {
    var x := DataPrefix + record;
    DataLineOneLine(record);
    assert Frame(record) + rest == x + ['\n'] + (['\n'] + rest);
    SplitAround(x, '\n', ['\n'] + rest);
    SplitWithout(x, '\n');
    assert [] + ['\n'] + rest == ['\n'] + rest;
    SplitAround([], '\n', rest);
    assert Split([], '\n') == [[]];
    var tail := Split(rest, '\n');
    var pieces := [x] + ([[]] + tail);
    assert Split(Frame(record) + rest, '\n') == pieces;
    DataLineNotBlank(record);
    NonBlankSkipsEmpty(x, tail);
  }

  /** A data line of printable text holds no line feed. */
  lemma DataLineOneLine(record: string)
    requires Printable(record)
    ensures '\n' !in DataPrefix + record
  {
    var x := DataPrefix + record;
    forall i | 0 <= i < |x| ensures x[i] != '\n' {
      if i >= |DataPrefix| {
        assert x[i] == record[i - |DataPrefix|];
      }
    }
  }

  lemma NonBlankSkipsEmpty(x: string, tail: seq<string>)
    requires !Blank(x)
    ensures NonBlank([x] + ([[]] + tail)) == [x] + NonBlank(tail)
  {
    assert Blank([]);
    assert ([x] + ([[]] + tail))[1..] == [[]] + tail;
    assert ([[]] + tail)[1..] == tail;
  }

  /** Records written on one line each come back, in order, as the data
      lines of the text, when that text is read as one chunk. */
  lemma {:induction false} FramesRead(records: seq<string>)
    requires forall k :: 0 <= k < |records| ==> Printable(records[k])
    ensures Lines(Frames(records)) == DataLines(records)
  {
    if records == [] {
      assert Split([], '\n') == [[]];
      assert Blank([]);
    } else {
      FrameThenRest(records[0], Frames(records[1..]));
      FramesRead(records[1..]);
    }
  }

  /** A record as a relay writes it: a piece of content, the terminal done
      record, or the terminal error record. */
  datatype Record = ContentRec(content: Value) | DoneRec | ErrorRec

  function RecordText(r: Record): string {
    match r
    case ContentRec(c) => ContentRecord(c)
    case DoneRec => DoneRecord
    case ErrorRec => ErrorRecord
  }

  lemma RecordPrintable(r: Record)
    ensures Printable(RecordText(r))
  {
    match r
    case ContentRec(c) => ContentRecordPrintable(c);
    case DoneRec => DoneRecordPrintable();
    case ErrorRec => ErrorRecordPrintable();
  }

  function Texts(records: seq<Record>): (texts: seq<string>)
    ensures |texts| == |records|
    ensures forall k :: 0 <= k < |records| ==> texts[k] == RecordText(records[k])
  {
    if records == [] then [] else [RecordText(records[0])] + Texts(records[1..])
  }

  /** The text of a whole event stream. */
  function StreamText(records: seq<Record>): string {
    Frames(Texts(records))
  }

  /** A stream read as one chunk gives one data line per record, in order,
      each carrying that record's text. */
  lemma StreamRead(records: seq<Record>)
    ensures Lines(StreamText(records)) == DataLines(Texts(records))
    ensures forall k :: 0 <= k < |records| ==>
      IsDataLine(DataLines(Texts(records))[k]) && Payload(DataLines(Texts(records))[k]) == RecordText(records[k])
  {
    var texts := Texts(records);
    forall k | 0 <= k < |texts| ensures Printable(texts[k]) {
      RecordPrintable(records[k]);
    }
    FramesRead(texts);
    DataLinesAt(texts);
    var lines := DataLines(texts);
    forall k | 0 <= k < |records|
      ensures IsDataLine(lines[k]) && Payload(lines[k]) == RecordText(records[k])
    {
      assert lines[k] == DataPrefix + texts[k];
      PayloadOfFrame(texts[k]);
    }
  }

  lemma {:induction false} DataLinesAt(texts: seq<string>)
    ensures forall k :: 0 <= k < |texts| ==> DataLines(texts)[k] == DataPrefix + texts[k]
  {
    if texts != [] {
      DataLinesAt(texts[1..]);
    }
  }

  /** A data line gives back the record it was written for. */
  lemma PayloadOfFrame(record: string)
    ensures IsDataLine(DataPrefix + record) && Payload(DataPrefix + record) == record
  {
  }
}

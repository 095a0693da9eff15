/** The mock relay (`POST /api/chat` in test-backend.js): the same reading
    and refusal as the real relay, a canned or file-listing response, and
    that response sent back word by word. */
module MockRelay {
  import opened Wrappers
  import opened Strings
  import opened Json
  import opened Wire
  import opened Api
  import opened Format

  /** The canned answers for a request without files. */
  const MockResponses: seq<string> := [
    "Hello! I'm your AI assistant. How can I help you today?",
    "That's an interesting question. Let me think about that...",
    "I understand. Could you tell me more about what you're looking for?",
    "Based on what you've told me, here's what I suggest...",
    "Is there anything else you'd like to know?"
  ]

  // ---------------------------------------------------------------------
  // The response
  // ---------------------------------------------------------------------

  /** `<name> (<size in KB>KB)`. */
  function Entry(f: Upload): string {
    f.originalName + " (" + Kilobytes(f.size) + "KB)"
  }

  function Entries(files: seq<Upload>): (r: seq<string>)
    ensures |r| == |files|
    ensures forall k :: 0 <= k < |files| ==> r[k] == Entry(files[k])
  {
    if files == [] then [] else [Entry(files[0])] + Entries(files[1..])
  }

  const ListSeparator: string := ", "

  /** The entries joined by `", "`. */
  function FileList(files: seq<Upload>): string {
    Join(Entries(files), ListSeparator)
  }

  const FilesOpening: string := "I received your files: "

  const FilesClosing: string :=
    ". In a real implementation, I would analyze these files and provide insights based on their content."
    + " For now, this is just a mock response demonstrating that file upload is working correctly!"

  /** The response that lists the uploaded files. */
  function FilesResponse(files: seq<Upload>): string {
    FilesOpening + FileList(files) + FilesClosing
  }

  /** The response: the file list when files came, otherwise the canned
      answer `pick`, the index `Math.random` chose. */
  function MockResponse(files: seq<Upload>, pick: nat): string
    requires pick < |MockResponses|
  {
    if |files| > 0 then FilesResponse(files) else MockResponses[pick]
  }

  /** With files, the response holds every file's entry, at the place of
      that entry in the joined list. */
  lemma FileEntryInResponse(files: seq<Upload>, k: nat)
    requires k < |files|
    ensures Occurs(FilesResponse(files), Entries(files)[k], |FilesOpening| + JoinOffset(Entries(files), ListSeparator, k))
  {
    PartInside(FilesOpening, Entries(files), ListSeparator, FilesClosing, k);
  }

  /** An entry begins with the file's original name. */
  lemma EntryNamesFile(f: Upload)
    ensures StartsWith(Entry(f), f.originalName)
  {
    assert Entry(f)[..|f.originalName|] == f.originalName;
  }

  /** The entries come in upload order, each before the next. */
  lemma EntriesInOrder(files: seq<Upload>, k: nat)
    requires k + 1 < |files|
    ensures JoinOffset(Entries(files), ListSeparator, k) + |Entry(files[k])| < JoinOffset(Entries(files), ListSeparator, k + 1)
  {
  }

  /** Without files the response is one of the canned answers. */
  lemma CannedWithoutFiles(pick: nat)
    requires pick < |MockResponses|
    ensures MockResponse([], pick) in MockResponses
  {
  }

  // ---------------------------------------------------------------------
  // Word by word
  // ---------------------------------------------------------------------

  /** Word `i` as it is sent: followed by a space unless it is the last. */
  function Word(words: seq<string>, i: nat): string
    requires i < |words|
  {
    words[i] + (if i < |words| - 1 then " " else "")
  }

  /** The records `sendWord` writes for `words`: one per word, then the
      done record. */
  function WordRecords(words: seq<string>): seq<Record> {
    seq(|words|, i requires 0 <= i < |words| => ContentRec(Str(Word(words, i)))) + [DoneRec]
  }

  /** `sendWord` run to the end, each timer step one turn of the loop. */
  method SendWords(response: string) returns (written: seq<Record>)
    ensures written == WordRecords(Split(response, ' '))
  {
    var words := Split(response, ' ');
    written := [];
    var index := 0;
    while index < |words|
      invariant 0 <= index <= |words|
      invariant written == seq(index, i requires 0 <= i < index => ContentRec(Str(Word(words, i))))
    {
      var word := words[index] + (if index < |words| - 1 then " " else "");
      written := written + [ContentRec(Str(word))];
      index := index + 1;
    }
    written := written + [DoneRec];
  }

  /** The contents of the content records, concatenated in order. */
  function ContentText(records: seq<Record>): string {
    if records == [] then []
    else (match records[0] case ContentRec(Str(s)) => s case _ => []) + ContentText(records[1..])
  }

  lemma {:induction false} SaidWords(words: seq<string>)
    requires |words| >= 1
    ensures ContentText(WordRecords(words)[..|words|]) == Join(words, " ")
    decreases |words|
  {
    var recs := WordRecords(words)[..|words|];
    if |words| > 1 {
      var tail := words[1..];
      SaidWords(tail);
      assert recs[0] == ContentRec(Str(words[0] + " "));
      assert recs[1..] == WordRecords(tail)[..|tail|] by {
        forall i | 0 <= i < |tail| ensures recs[1..][i] == WordRecords(tail)[i] {
          assert Word(words, i + 1) == Word(tail, i);
        }
      }
      assert ContentText(recs) == words[0] + " " + ContentText(recs[1..]);
    } else {
      assert recs[0] == ContentRec(Str(words[0]));
      assert recs[1..] == [];
      assert ContentText(recs) == words[0] + ContentText([]);
    }
  }

  /** The pieces sent, put back together, are the response: one content
      record per word, then exactly one done record. */
  lemma WordsRoundTrip(response: string)
    ensures |WordRecords(Split(response, ' '))| == |Split(response, ' ')| + 1
    ensures ContentText(WordRecords(Split(response, ' '))[..|Split(response, ' ')|]) == response
    ensures forall i :: 0 <= i < |Split(response, ' ')| ==> WordRecords(Split(response, ' '))[i].ContentRec?
    ensures WordRecords(Split(response, ' '))[|Split(response, ' ')|] == DoneRec
  {
    SaidWords(Split(response, ' '));
    JoinSplit(response, ' ');
  }

  // ---------------------------------------------------------------------
  // The handler
  // ---------------------------------------------------------------------

  /** The whole mock handler, with `pick` the canned answer chosen. */
  function MockHandle(req: Request, parse: Parser, pick: nat): Reply
    requires pick < |MockResponses|
  {
    match Receive(req, parse)
    case None => NoReply
    case Some(intake) =>
      if Refused(intake.messages) then InvalidRequest()
      else
        var response := MockResponse(req.files, pick);
        if Truthy(intake.stream) then EventStream(StreamText(WordRecords(Split(response, ' '))))
        else JsonReply(200, Obj([Field("content", Str(response)), Field("done", Bool(true))]))
  }

  /** The mock refuses exactly the requests whose `messages` is not an
      array, with 400 and `INVALID_REQUEST`. */
  lemma MockRefusal(req: Request, parse: Parser, pick: nat, intake: Intake)
    requires pick < |MockResponses| && Receive(req, parse) == Some(intake)
    ensures MockHandle(req, parse, pick) == InvalidRequest() <==> Refused(intake.messages)
  {
  }

  /** Streamed, the reader sees one data line per word and then the done
      record, and the words it gathers are the response. */
  lemma MockStreamRead(req: Request, parse: Parser, pick: nat, intake: Intake, response: string)
    requires pick < |MockResponses| && Receive(req, parse) == Some(intake)
    requires !Refused(intake.messages) && Truthy(intake.stream)
    requires response == MockResponse(req.files, pick)
    ensures MockHandle(req, parse, pick).EventStream?
    ensures Lines(MockHandle(req, parse, pick).text) == DataLines(Texts(WordRecords(Split(response, ' '))))
    ensures ContentText(WordRecords(Split(response, ' '))[..|Split(response, ' ')|]) == response
  {
    StreamRead(WordRecords(Split(response, ' ')));
    WordsRoundTrip(response);
  }

  /** Not streamed, the response comes back whole with `done: true`. */
  lemma MockWhole(req: Request, parse: Parser, pick: nat, intake: Intake)
    requires pick < |MockResponses| && Receive(req, parse) == Some(intake)
    requires !Refused(intake.messages) && !Truthy(intake.stream)
    ensures MockHandle(req, parse, pick).JsonReply?
    ensures MockHandle(req, parse, pick).status == 200
    ensures Lookup(MockHandle(req, parse, pick).body.fields, "content") == Str(MockResponse(req.files, pick))
    ensures Lookup(MockHandle(req, parse, pick).body.fields, "done") == Bool(true)
  {
    assert "content" != "done";
    var fields := MockHandle(req, parse, pick).body.fields;
    assert fields[..1] == [Field("content", Str(MockResponse(req.files, pick)))];
    assert fields[..1][..0] == [];
  }
}

/** What the relay promises: refusal before any upstream call, the shape of
    the multimodal content, the upstream error mapping, and the records of
    the relayed stream. */
module RelayProperties {
  import opened Wrappers
  import opened Strings
  import opened Json
  import opened Wire
  import opened Api
  import opened Format
  import opened Relay

  // ---------------------------------------------------------------------
  // Validation
  // ---------------------------------------------------------------------

  lemma AnswerNotRefusal(upstream: Upstream, stream: Value, parse: Parser)
    ensures Answer(upstream, stream, parse) != InvalidRequest()
  {
    assert "API_ERROR" != "INVALID_REQUEST";
  }

  /** A request whose `messages` is not an array is answered 400
      `INVALID_REQUEST` whatever the upstream would say, so the upstream
      plays no part; an array is never answered so. */
  lemma RefusedBeforeUpstream(req: Request, parse: Parser, fetch: Fetch, intake: Intake, messages: Value)
    requires Receive(req, parse) == Some(intake)
    requires Messages(req, intake) == Some(messages)
    ensures Refused(messages) ==> Handle(req, parse, fetch) == InvalidRequest()
    ensures !Refused(messages) ==> Handle(req, parse, fetch) != InvalidRequest()
  {
    if !Refused(messages) {
      AnswerNotRefusal(fetch(messages, intake.stream), intake.stream, parse);
    }
  }

  /** Without files the messages go upstream exactly as received. */
  lemma ForwardedUnchanged(req: Request, parse: Parser, fetch: Fetch, items: seq<Value>)
    requires req.files == [] && Get(req.body, "messages") == Some(Arr(items))
    ensures Receive(req, parse).Some?
    ensures Handle(req, parse, fetch)
      == Answer(fetch(Arr(items), Receive(req, parse).value.stream), Receive(req, parse).value.stream, parse)
  {
  }

  // ---------------------------------------------------------------------
  // Multimodal content
  // ---------------------------------------------------------------------

  /** The image files among `files`, in order. */
  function ImageFiles(files: seq<Upload>): seq<Upload> {
    if files == [] then []
    else (if IsImage(files[0]) then [files[0]] else []) + ImageFiles(files[1..])
  }

  /** The notes of the files that are not images, in order. */
  function Notes(files: seq<Upload>): string {
    if files == [] then []
    else (if IsImage(files[0]) then [] else Note(files[0])) + Notes(files[1..])
  }

  lemma {:induction false} ImageFilesAppend(a: seq<Upload>, f: Upload)
    ensures ImageFiles(a + [f]) == ImageFiles(a) + (if IsImage(f) then [f] else [])
  {
    if a != [] {
      assert (a + [f])[1..] == a[1..] + [f];
      ImageFilesAppend(a[1..], f);
    } else {
      assert [f][1..] == [];
    }
  }

  lemma {:induction false} NotesAppend(a: seq<Upload>, f: Upload)
    ensures Notes(a + [f]) == Notes(a) + (if IsImage(f) then [] else Note(f))
  {
    var nf := if IsImage(f) then [] else Note(f);
    if a != [] {
      var g := a[0];
      var n0 := if IsImage(g) then [] else Note(g);
      assert (a + [f])[0] == g && (a + [f])[1..] == a[1..] + [f];
      assert Notes(a + [f]) == n0 + Notes(a[1..] + [f]);
      NotesAppend(a[1..], f);
      assert n0 + (Notes(a[1..]) + nf) == (n0 + Notes(a[1..])) + nf;
    } else {
      assert a + [f] == [f] && [f][1..] == [];
      assert Notes([f]) == nf + [] == nf;
    }
  }

  /** One image part per image file, in file order. */
  lemma {:induction false} ImagesInOrder(files: seq<Upload>)
    ensures |Images(files)| == |ImageFiles(files)|
    ensures forall k :: 0 <= k < |Images(files)| ==> Images(files)[k] == ImagePart(ImageFiles(files)[k])
    decreases |files|
  {
    if files != [] {
      var a, f := files[..|files| - 1], files[|files| - 1];
      assert a + [f] == files;
      ImagesInOrder(a);
      ImageFilesAppend(a, f);
    }
  }

  /** The content has one text part and then one part per image. */
  lemma PartCount(original: Value, files: seq<Upload>)
    ensures |Parts(original, files)| == 1 + |ImageFiles(files)|
    ensures Parts(original, files)[0] == TextPart(TextAfter(original, files))
  {
    ImagesInOrder(files);
  }

  /** The text part holds the original content when every file is an
      image. */
  lemma {:induction false} TextOfImages(original: Value, files: seq<Upload>)
    requires AllImages(files)
    ensures TextAfter(original, files) == original && Notes(files) == []
    decreases |files|
  {
    if files != [] {
      var a, f := files[..|files| - 1], files[|files| - 1];
      assert a + [f] == files;
      AllImagesAppend(a, f);
      TextOfImages(original, a);
      NotesAppend(a, f);
    }
  }

  /** Otherwise the text part is the original content as text followed by
      one note per file that is not an image, in file order. */
  lemma {:induction false} TextWithNotes(original: Value, files: seq<Upload>)
    requires !AllImages(files)
    ensures TextAfter(original, files) == Str(ToJsString(original) + Notes(files))
    decreases |files|
  {
    var a, f := files[..|files| - 1], files[|files| - 1];
    assert a + [f] == files;
    AllImagesAppend(a, f);
    if AllImages(a) {
      TextOfImages(original, a);
    } else {
      TextWithNotes(original, a);
    }
    TextStep(original, a, f, TextAfter(original, a), Notes(a));
  }

  /** One more file visited, with what is known of the files before it. */
  lemma TextStep(original: Value, a: seq<Upload>, f: Upload, before: Value, notes: string)
    requires before == TextAfter(original, a) && notes == Notes(a)
    requires AllImages(a) ==> before == original && notes == []
    requires !AllImages(a) ==> before == Str(ToJsString(original) + notes)
    requires !(AllImages(a) && IsImage(f))
    ensures TextAfter(original, a + [f]) == Str(ToJsString(original) + Notes(a + [f]))
  {
    NotesAppend(a, f);
    assert (a + [f])[..|a|] == a;
    assert TextAfter(original, a + [f]) == if IsImage(f) then before else Str(ToJsString(before) + Note(f));
    var text := ToJsString(original);
    if IsImage(f) {
      assert notes + [] == notes;
      assert Notes(a + [f]) == notes;
      assert TextAfter(original, a + [f]) == Str(text + notes);
    } else if AllImages(a) {
      assert [] + Note(f) == Note(f);
      assert Notes(a + [f]) == Note(f);
      assert ToJsString(before) == text;
      assert TextAfter(original, a + [f]) == Str(text + Note(f));
    } else {
      NoteAppended(text, notes, Note(f));
      assert Notes(a + [f]) == notes + Note(f);
      assert TextAfter(original, a + [f]) == Str(text + (notes + Note(f)));
    }
  }

  lemma NoteAppended(text: string, notes: string, note: string)
    ensures ToJsString(Str(text + notes)) + note == text + (notes + note)
  {
  }

  lemma AllImagesAppend(a: seq<Upload>, f: Upload)
    ensures AllImages(a + [f]) <==> AllImages(a) && IsImage(f)
  {
    if AllImages(a + [f]) {
      assert forall k :: 0 <= k < |a| ==> a[k] == (a + [f])[k];
      assert (a + [f])[|a|] == f;
    }
  }

  /** The data URL of an image carries its bytes: the text after the
      `data:<mime>;base64,` prefix decodes to the buffer. */
  lemma ImageUrlCarriesBytes(f: Upload)
    ensures StartsWith(DataUrl(f), "data:" + f.mimeType + ";base64,")
    ensures Base64Decode(DataUrl(f)[|f.mimeType| + 13..]) == Some(f.buffer)
  {
    var prefix := "data:" + f.mimeType + ";base64,";
    assert DataUrl(f) == prefix + Base64(f.buffer);
    assert DataUrl(f)[|prefix|..] == Base64(f.buffer);
    Base64RoundTrip(f.buffer);
  }

  /** The two objects agree on every key but `key`. */
  ghost predicate SameExcept(a: seq<Field>, b: seq<Field>, key: string) {
    forall k :: k != key ==> Lookup(a, k) == Lookup(b, k)
  }

  /** Normalisation touches only the last message, and only when it has
      role `user`: its `content` becomes the multimodal parts of the old
      content, every other field stays. */
  lemma NormaliseLast(items: seq<Value>, files: seq<Upload>, r: Value)
    requires items != [] && Normalise(Arr(items), files) == Some(r)
    ensures r.Arr? && |r.items| == |items|
    ensures forall k :: 0 <= k < |items| - 1 ==> r.items[k] == items[k]
    ensures !IsUserMessage(items[|items| - 1]) ==> r == Arr(items)
    ensures IsUserMessage(items[|items| - 1]) ==>
      r.items[|items| - 1].Obj?
      && Lookup(r.items[|items| - 1].fields, "content")
        == Arr(Parts(Lookup(items[|items| - 1].fields, "content"), files))
      && SameExcept(r.items[|items| - 1].fields, items[|items| - 1].fields, "content")
  {
  }

  /** A user message whose content cannot take a note. */
  predicate UserNoteThrows(m: Value, files: seq<Upload>) {
    IsUserMessage(m) && NoteThrows(Lookup(m.fields, "content"), files)
  }

  /** Normalisation throws exactly where reading the last message does
      (`null` and `undefined`) and where a note is appended to a last user
      message whose content cannot be converted to a string, be it the last
      item of an array or the entry an object yields for its key
      `length - 1`. */
  lemma NormaliseThrows(messages: Value, files: seq<Upload>)
    ensures Normalise(messages, files).None? <==>
      || Nullish(messages)
      || (&& messages.Arr? && messages.items != []
          && UserNoteThrows(messages.items[|messages.items| - 1], files))
      || (&& messages.Obj? && LastKey(messages.fields).Some?
          && UserNoteThrows(Lookup(messages.fields, LastKey(messages.fields).value), files))
  {
  }

  /** An object without `length` reads its entry `NaN` as the last message:
      when that entry is a user message whose content cannot be converted,
      a file that is not an image makes the handler throw. */
  lemma NaNEntryThrows(messages: Value, files: seq<Upload>, k: nat)
    requires messages == Obj([Field("NaN", Obj([Field("role", Str("user")), Field("content", Obj([Field("toString", Num(0))]))]))])
    requires k < |files| && !IsImage(files[k])
    ensures Normalise(messages, files).None?
  {
    var c := Obj([Field("toString", Num(0))]);
    var m := Obj([Field("role", Str("user")), Field("content", c)]);
    NaNEntryRead(messages.fields, m);
    UserMessageContent(m, c);
    ToStringKeyThrows(c, files, k);
    NormaliseThrows(messages, files);
  }

  lemma NaNEntryRead(fields: seq<Field>, m: Value)
    requires fields == [Field("NaN", m)]
    ensures LastKey(fields) == Some("NaN") && Lookup(fields, "NaN") == m
  {
    assert fields[..|fields| - 1] == [];
    assert fields[|fields| - 1].key != "length" by { assert |"NaN"| != |"length"|; }
    assert Lookup(fields, "length") == Undefined;
  }

  lemma UserMessageContent(m: Value, c: Value)
    requires m == Obj([Field("role", Str("user")), Field("content", c)])
    ensures IsUserMessage(m) && Lookup(m.fields, "content") == c
  {
    assert m.fields[..|m.fields| - 1] == [Field("role", Str("user"))];
    assert |"role"| != |"content"|;
  }

  lemma ToStringKeyThrows(c: Value, files: seq<Upload>, k: nat)
    requires c == Obj([Field("toString", Num(0))])
    requires k < |files| && !IsImage(files[k])
    ensures NoteThrows(c, files)
  {
    assert c.fields[0].key == "toString";
  }

  /** An object whose `length` counts its index keys reads its last entry
      as the array of those entries does. */
  lemma ArrayLikeLast(a: Value, b: Value)
    ensures LastElement(Obj([Field("0", a), Field("1", b), Field("length", Num(2))])) == LastElement(Arr([a, b]))
  {
    var fields := [Field("0", a), Field("1", b), Field("length", Num(2))];
    assert NatToString(1) == "1";
    assert fields[..2] == [Field("0", a), Field("1", b)];
    assert |"1"| != |"length"|;
    assert Lookup(fields, "1") == b;
  }

  /** Normalising an object rewrites only the entry it read, so the result
      is still an object and is refused. */
  lemma ObjectStillRefused(messages: Value, files: seq<Upload>, r: Value)
    requires messages.Obj? && Normalise(messages, files) == Some(r)
    ensures r.Obj? && Refused(r)
    ensures LastKey(messages.fields).Some? ==> SameExcept(r.fields, messages.fields, LastKey(messages.fields).value)
    ensures LastKey(messages.fields).None? ==> r == messages
  {
    var fields := messages.fields;
    if LastKey(fields).Some? {
      var k := LastKey(fields).value;
      var last := Lookup(fields, k);
      if IsUserMessage(last) {
        var m := Obj(SetField(last.fields, "content", Arr(Parts(Lookup(last.fields, "content"), files))));
        assert r == Obj(SetField(fields, k, m));
      }
    }
  }

  // ---------------------------------------------------------------------
  // The upstream error mapping
  // ---------------------------------------------------------------------

  function ErrorField(body: Value, key: string): Value {
    GetOpt(GetOpt(body, "error"), key)
  }

  lemma LookupPair(f: Field, g: Field, key: string)
    ensures Lookup([f, g], key) == if g.key == key then g.value else if f.key == key then f.value else Undefined
  {
    assert [f][..0] == [];
    assert Lookup([f], key) == if f.key == key then f.value else Undefined;
    assert [f, g][..1] == [f];
  }

  lemma ErrorBodyFields(message: Value, code: string)
    ensures ErrorField(ErrorBody(message, code), "message") == message
    ensures ErrorField(ErrorBody(message, code), "code") == Str(code)
  {
    assert "code" != "message";
    LookupPair(Field("message", message), Field("code", Str(code)), "message");
    LookupPair(Field("message", message), Field("code", Str(code)), "code");
  }

  /** A failed upstream response is answered with its own status, code
      `API_ERROR` and a truthy message, unless its body cannot be read or
      is `null`, which ends in the 500 `CHAT_ERROR` reply. */
  lemma UpstreamFailure(status: int, json: Option<Value>, chunks: seq<string>, broken: bool,
                        stream: Value, parse: Parser, r: Reply)
    requires !Ok(status) && r == Answer(Response(status, json, chunks, broken), stream, parse)
    ensures r.JsonReply?
    ensures r == ChatError() <==> json.None? || Nullish(json.value)
    ensures r != ChatError() ==>
      r.status == status && ErrorField(r.body, "code") == Str("API_ERROR") && Truthy(ErrorField(r.body, "message"))
  {
    if json.Some? && !Nullish(json.value) {
      var message := GetOpt(Get(json.value, "error").value, "message");
      var m := if Truthy(message) then message else Str("API request failed");
      ErrorBodyFields(m, "API_ERROR");
      ErrorBodyFields(Str("Failed to process chat request"), "CHAT_ERROR");
      assert "API_ERROR" != "CHAT_ERROR";
    }
  }

  /** The upstream's own message is passed on. */
  lemma UpstreamMessagePassedOn(status: int, m: string, chunks: seq<string>, broken: bool,
                                stream: Value, parse: Parser, r: Reply)
    requires !Ok(status) && m != []
    requires r == Answer(Response(status, Some(Obj([Field("error", Obj([Field("message", Str(m))]))])), chunks, broken),
                         stream, parse)
    ensures r.JsonReply? && r.status == status && ErrorField(r.body, "message") == Str(m)
  {
    var detail := Obj([Field("message", Str(m))]);
    var body := Obj([Field("error", detail)]);
    assert Get(body, "error") == Some(detail);
    assert GetOpt(detail, "message") == Str(m);
    assert UpstreamError(status, Some(body)) == Some(JsonReply(status, ErrorBody(Str(m), "API_ERROR")));
    ErrorBodyFields(Str(m), "API_ERROR");
  }

  // ---------------------------------------------------------------------
  // The non-streaming result
  // ---------------------------------------------------------------------

  /** A chat completion body with one choice. */
  function Completion(content: Value): Value {
    Obj([Field("choices", Arr([Obj([Field("message", Obj([Field("role", Str("assistant")), Field("content", content)]))])]))])
  }

  /** Without streaming, the content of the first choice comes back with
      `done: true`. */
  lemma CompletionPassedOn(content: Value, status: int, chunks: seq<string>, broken: bool,
                           stream: Value, parse: Parser)
    requires Ok(status) && !Truthy(stream)
    ensures Answer(Response(status, Some(Completion(content)), chunks, broken), stream, parse)
      == JsonReply(200, Obj([Field("content", content), Field("done", Bool(true))]))
  {
    CompletionContent(content);
  }

  /** The content of the first choice's message is read back. */
  lemma CompletionContent(content: Value)
    ensures ReplyContent(Completion(content)) == Some(content)
  {
    var message := Obj([Field("role", Str("assistant")), Field("content", content)]);
    var choice := Obj([Field("message", message)]);
    assert Get(Completion(content), "choices") == Some(Arr([choice]));
    assert At(Arr([choice]), 0) == Some(choice);
    assert Get(choice, "message") == Some(message);
    assert "role" != "content";
    assert Get(message, "content") == Some(content);
  }

  // ---------------------------------------------------------------------
  // The relayed stream
  // ---------------------------------------------------------------------

  /** Records that each carry truthy content. */
  predicate Deltas(records: seq<Record>) {
    forall k :: 0 <= k < |records| ==> records[k].ContentRec? && Truthy(records[k].content)
  }

  lemma DeltasAppend(a: seq<Record>, b: seq<Record>)
    requires Deltas(a) && Deltas(b)
    ensures Deltas(a + b)
  {
    assert forall k :: 0 <= k < |a + b| ==> (a + b)[k] == if k < |a| then a[k] else b[k - |a|];
  }

  /** Content records put before a stream that ends in one terminal record
      keep it ending so. */
  lemma DeltasBefore(a: seq<Record>, rest: seq<Record>, r: seq<Record>)
    requires Deltas(a) && |rest| >= 1 && Deltas(rest[..|rest| - 1]) && r == a + rest
    ensures |r| >= 1 && r[|r| - 1] == rest[|rest| - 1]
    ensures Deltas(r[..|r| - 1])
  {
    assert r[..|r| - 1] == a + rest[..|rest| - 1];
    DeltasAppend(a, rest[..|rest| - 1]);
  }

  /** The lines of a chunk write content records only, then the done
      record exactly when `[DONE]` stopped them. */
  lemma {:induction false} TranslateShape(lines: seq<string>, parse: Parser, t: Translation)
    requires t == TranslateLines(lines, parse)
    ensures !t.stopped ==> Deltas(t.records)
    ensures t.stopped ==> |t.records| >= 1
    ensures t.stopped ==> t.records[|t.records| - 1] == DoneRec && Deltas(t.records[..|t.records| - 1])
    decreases |lines|
  {
    if lines != [] && !IsDoneLine(lines[0]) {
      var rest := TranslateLines(lines[1..], parse);
      TranslateShape(lines[1..], parse, rest);
      var own := Own(lines[0], parse);
      assert Deltas(own);
      assert t.records == own + rest.records;
      if rest.stopped {
        DeltasBefore(own, rest.records, t.records);
      } else {
        DeltasAppend(own, rest.records);
      }
    }
  }

  /** The relayed stream is content records, then exactly one terminal
      record; it is the error record only when the upstream read failed. */
  lemma {:induction false} RelayShape(all: seq<seq<string>>, broken: bool, parse: Parser, r: seq<Record>)
    requires r == RelayLines(all, broken, parse)
    ensures |r| >= 1 && Deltas(r[..|r| - 1])
    ensures r[|r| - 1] == DoneRec || r[|r| - 1] == ErrorRec
    ensures r[|r| - 1] == ErrorRec ==> broken
    decreases |all|
  {
    if all == [] {
      RelayShapeEnd(broken, r);
    } else {
      var t := TranslateLines(all[0], parse);
      var rest := RelayLines(all[1..], broken, parse);
      if !t.stopped {
        RelayShape(all[1..], broken, parse, rest);
      }
      RelayShapeStep(all, broken, parse, t, rest, r);
    }
  }

  /** Content records, then one terminal record, the error record only
      when the read failed. */
  predicate RelayShaped(r: seq<Record>, broken: bool) {
    && |r| >= 1 && Deltas(r[..|r| - 1])
    && (r[|r| - 1] == DoneRec || r[|r| - 1] == ErrorRec)
    && (r[|r| - 1] == ErrorRec ==> broken)
  }

  lemma RelayShapeEnd(broken: bool, r: seq<Record>)
    requires r == [if broken then ErrorRec else DoneRec]
    ensures RelayShaped(r, broken)
  {
    assert r[..0] == [];
  }

  lemma RelayShapeStep(all: seq<seq<string>>, broken: bool, parse: Parser, t: Translation, rest: seq<Record>, r: seq<Record>)
    requires all != [] && t == TranslateLines(all[0], parse)
    requires rest == RelayLines(all[1..], broken, parse) && r == RelayLines(all, broken, parse)
    requires !t.stopped ==> RelayShaped(rest, broken)
    ensures RelayShaped(r, broken)
  {
    TranslateShape(all[0], parse, t);
    RelayFirstChunk(all, broken, parse, t, rest, r);
    if !t.stopped {
      DeltasBefore(t.records, rest, r);
    }
  }

  /** The records of the first chunk, then those of the later chunks unless
      the first one stopped the relay. */
  lemma RelayFirstChunk(all: seq<seq<string>>, broken: bool, parse: Parser, t: Translation, rest: seq<Record>, r: seq<Record>)
    requires all != [] && t == TranslateLines(all[0], parse)
    requires rest == RelayLines(all[1..], broken, parse) && r == RelayLines(all, broken, parse)
    ensures t.stopped ==> r == t.records
    ensures !t.stopped ==> r == t.records + rest
  {
  }

  /** The first `[DONE]` line writes the done record after what the lines
      before it wrote and ends the chunk: the lines after it are skipped. */
  lemma {:induction false} DoneLineStops(lines: seq<string>, j: nat, parse: Parser)
    requires j < |lines| && IsDoneLine(lines[j])
    requires forall i :: 0 <= i < j ==> !IsDoneLine(lines[i])
    ensures TranslateLines(lines, parse).stopped
    ensures TranslateLines(lines, parse).records == TranslateLines(lines[..j], parse).records + [DoneRec]
    decreases j
  {
    if j > 0 {
      assert lines[1..][j - 1] == lines[j];
      DoneLineStops(lines[1..], j - 1, parse);
      assert lines[..j][0] == lines[0] && lines[..j][1..] == lines[1..][..j - 1];
    } else {
      assert lines[..0] == [];
    }
  }

  /** A line that is not a data line is ignored. */
  lemma OtherLineIgnored(line: string, rest: seq<string>, parse: Parser)
    requires !IsDataLine(line)
    ensures TranslateLines([line] + rest, parse) == TranslateLines(rest, parse)
  {
    assert ([line] + rest)[1..] == rest;
  }

  /** A data line whose payload does not parse is skipped and the lines
      after it are still read. */
  lemma UnparsableLineSkipped(line: string, rest: seq<string>, parse: Parser)
    requires IsDataLine(line) && !IsDoneLine(line) && parse(Payload(line)).None?
    ensures TranslateLines([line] + rest, parse) == TranslateLines(rest, parse)
  {
    assert ([line] + rest)[1..] == rest;
  }

  /** A data line writes one record exactly when it carries truthy content,
      and the record carries that content. */
  lemma DeltaLineWrites(line: string, rest: seq<string>, parse: Parser, c: Value)
    requires IsDataLine(line) && !IsDoneLine(line)
    ensures LineContent(Payload(line), parse) == Some(c) ==>
      Truthy(c) && TranslateLines([line] + rest, parse).records == [ContentRec(c)] + TranslateLines(rest, parse).records
    ensures LineContent(Payload(line), parse).None? ==>
      TranslateLines([line] + rest, parse) == TranslateLines(rest, parse)
  {
    assert ([line] + rest)[1..] == rest;
  }

  /** Read as one chunk, the text the relay writes gives one data line per
      record, in order, each carrying that record's text. */
  lemma RelayedTextRead(all: seq<seq<string>>, broken: bool, parse: Parser)
    ensures Lines(StreamText(RelayLines(all, broken, parse))) == DataLines(Texts(RelayLines(all, broken, parse)))
  {
    StreamRead(RelayLines(all, broken, parse));
  }
}

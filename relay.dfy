/** The relay in front of the language-model service (`POST /api/chat` in
    backend-example.js): reading the request, turning the last user message
    into multimodal content when files come with it, refusing a request
    without a `messages` array, mapping an upstream failure, and translating
    the upstream event stream into the widget's records. */
module Relay {
  import opened Wrappers
  import opened Strings
  import opened Json
  import opened Wire
  import opened Api
  import opened Format

  // ---------------------------------------------------------------------
  // Multimodal normalisation
  // ---------------------------------------------------------------------

  /** The property key that `messages[messages.length - 1]` reads on an
      object: `length - 1` written as a string, which is `NaN` when the
      object has no `length`. `None` for a `length` that is a string, an
      array or an object, whose conversion to a number is not modelled. */
  function LastKey(fields: seq<Field>): Option<string> {
    match Lookup(fields, "length")
    case Undefined => Some("NaN")
    case Null => Some("-1")
    case Bool(b) => Some(if b then "0" else "-1")
    case Num(n) => Some(IntToString(n - 1))
    case _ => None
  }

  /** `messages[messages.length - 1]`: `None` where it throws. A boolean or
      a number has no `length`, so it reads its property `NaN`, which is
      `undefined`. */
  function LastElement(messages: Value): Option<Value> {
    match messages
    case Undefined => None
    case Null => None
    case Arr(items) => Some(if items == [] then Undefined else items[|items| - 1])
    case Str(s) => Some(if s == [] then Undefined else Str([s[|s| - 1]]))
    case Obj(fields) => Some(match LastKey(fields) case Some(k) => Lookup(fields, k) case None => Undefined)
    case _ => Some(Undefined)
  }

  /** `messages` with the entry that `LastElement` reads replaced by `m`:
      the assignment to `lastUserMessage.content` changes that entry in
      place. */
  function ReplaceLast(messages: Value, m: Value): Value {
    match messages
    case Arr(items) => if items == [] then messages else Arr(items[..|items| - 1] + [m])
    case Obj(fields) => (match LastKey(fields) case Some(k) => Obj(SetField(fields, k, m)) case None => messages)
    case _ => messages
  }

  /** `lastUserMessage && lastUserMessage.role === 'user'`. */
  predicate IsUserMessage(m: Value) {
    m.Obj? && Lookup(m.fields, "role") == Str("user")
  }

  predicate IsImage(f: Upload) {
    StartsWith(f.mimeType, "image/")
  }

  /** `{ type: 'text', text }`. */
  function TextPart(text: Value): Value {
    Obj([Field("type", Str("text")), Field("text", text)])
  }

  /** `data:<mime>;base64,<bytes in base64>`. */
  function DataUrl(f: Upload): string {
    "data:" + f.mimeType + ";base64," + Base64(f.buffer)
  }

  /** `{ type: 'image_url', image_url: { url, detail: 'high' } }`. */
  function ImagePart(f: Upload): Value {
    Obj([Field("type", Str("image_url")),
         Field("image_url", Obj([Field("url", Str(DataUrl(f))), Field("detail", Str("high"))]))])
  }

  /** The note a file that is not an image adds to the text part. */
  function Note(f: Upload): string {
    "\n\n[Attached file: " + f.originalName + " (" + Kilobytes(f.size)
      + "KB) - Note: GPT-4o can only process images directly]"
  }

  /** The text of part 0 once the given files have been visited. */
  function TextAfter(original: Value, files: seq<Upload>): Value
    decreases |files|
  {
    if files == [] then original
    else
      var text := TextAfter(original, files[..|files| - 1]);
      var f := files[|files| - 1];
      if IsImage(f) then text else Str(ToJsString(text) + Note(f))
  }

  /** The image parts for the given files, in file order. */
  function Images(files: seq<Upload>): seq<Value>
    decreases |files|
  {
    if files == [] then []
    else
      var f := files[|files| - 1];
      Images(files[..|files| - 1]) + (if IsImage(f) then [ImagePart(f)] else [])
  }

  predicate AllImages(files: seq<Upload>) {
    forall k :: 0 <= k < |files| ==> IsImage(files[k])
  }

  /** Appending a note throws: the first file that is not an image converts
      the original content to a string, and that conversion throws. Once a
      note is appended the text is a string, which always converts. */
  predicate NoteThrows(original: Value, files: seq<Upload>) {
    ConversionThrows(original) && !AllImages(files)
  }

  /** Part 0's text is the original content until a note is appended, and a
      string from then on. */
  lemma {:induction false} TextAfterShape(original: Value, files: seq<Upload>)
    ensures TextAfter(original, files) == original || TextAfter(original, files).Str?
    decreases |files|
  {
    if files != [] {
      TextAfterShape(original, files[..|files| - 1]);
    }
  }

  lemma AllImagesStep(files: seq<Upload>, i: nat)
    requires i < |files| && IsImage(files[i])
    ensures AllImages(files[..i]) ==> AllImages(files[..i + 1])
  {
    assert files[..i + 1] == files[..i] + [files[i]];
  }

  /** The note for a file that is not an image throws exactly when the
      whole loop does: while no note has been appended the text is still the
      original content, and afterwards it is a string. */
  lemma NoteStep(original: Value, files: seq<Upload>, i: nat, text: Value)
    requires i < |files| && !IsImage(files[i]) && text == TextAfter(original, files[..i])
    requires ConversionThrows(original) ==> text == original
    ensures ConversionThrows(text) <==> NoteThrows(original, files)
    ensures ConversionThrows(text) <==> ConversionThrows(original)
  {
    TextAfterShape(original, files[..i]);
  }

  /** The content the loop builds for the last user message. */
  function Parts(original: Value, files: seq<Upload>): seq<Value> {
    [TextPart(TextAfter(original, files))] + Images(files)
  }

  /** Visiting one more file: an image appends its part, any other file
      rewrites part 0 with its note appended. */
  lemma PartsStep(original: Value, files: seq<Upload>, i: nat)
    requires i < |files|
    ensures IsImage(files[i]) ==> Parts(original, files[..i + 1]) == Parts(original, files[..i]) + [ImagePart(files[i])]
    ensures !IsImage(files[i]) ==>
      (Parts(original, files[..i + 1])
        == Parts(original, files[..i])[0 := TextPart(Str(ToJsString(TextAfter(original, files[..i])) + Note(files[i])))])
  {
    var seen := files[..i + 1];
    var f := files[i];
    assert seen[..|seen| - 1] == files[..i] && seen[|seen| - 1] == f;
    var text := TextAfter(original, files[..i]);
    var images := Images(files[..i]);
    assert Images(seen) == images + (if IsImage(f) then [ImagePart(f)] else []);
    assert TextAfter(original, seen) == if IsImage(f) then text else Str(ToJsString(text) + Note(f));
    if IsImage(f) {
      assert [TextPart(text)] + (images + [ImagePart(f)]) == ([TextPart(text)] + images) + [ImagePart(f)];
    } else {
      assert images + [] == images;
      HeadUpdate(TextPart(text), TextPart(Str(ToJsString(text) + Note(f))), images);
    }
  }

  /** Updating the head of a sequence keeps its tail. */
  lemma HeadUpdate<T>(x: T, y: T, rest: seq<T>)
    ensures ([x] + rest)[0 := y] == [y] + rest
  {
    assert forall k :: 0 <= k < |rest| + 1 ==> ([x] + rest)[0 := y][k] == ([y] + rest)[k];
  }

  lemma TextOfPart(text: Value)
    ensures TextPart(text).Obj? && Lookup(TextPart(text).fields, "text") == text
  {
  }

  /** The loop over the uploaded files (lines 37-58): an image adds a part,
      any other file adds a note to the text of part 0. `None` where the
      note's `+=` throws. */
  method MultimodalContent(original: Value, files: seq<Upload>) returns (content: Option<seq<Value>>)
    ensures content.None? <==> NoteThrows(original, files)
    ensures content.Some? ==> content.value == Parts(original, files)
  {
    var parts := [TextPart(original)];
    for i := 0 to |files|
      invariant parts == Parts(original, files[..i])
      invariant ConversionThrows(original) ==> AllImages(files[..i]) && parts[0] == TextPart(original)
    {
      var file := files[i];
      PartsStep(original, files, i);
      if IsImage(file) {
        parts := parts + [ImagePart(file)];
        AllImagesStep(files, i);
      } else {
        TextOfPart(TextAfter(original, files[..i]));
        var text := Lookup(parts[0].fields, "text");
        NoteStep(original, files, i, text);
        if ConversionThrows(text) {
          return None;
        }
        parts := parts[0 := TextPart(Str(ToJsString(text) + Note(file)))];
      }
    }
    assert files[..|files|] == files;
    return Some(parts);
  }

  /** The messages the relay sends on: with files, a last message of role
      `user` (for an object, the entry `LastElement` reads) gets the
      multimodal content and everything else stays. `None` where reading
      the last message throws, or appending a note to its content does. */
  function Normalise(messages: Value, files: seq<Upload>): Option<Value> {
    match LastElement(messages)
    case None => None
    case Some(last) =>
      if !IsUserMessage(last) then Some(messages)
      else
        var content := Lookup(last.fields, "content");
        if NoteThrows(content, files) then None
        else Some(ReplaceLast(messages, Obj(SetField(last.fields, "content", Arr(Parts(content, files))))))
  }

  // ---------------------------------------------------------------------
  // Translating the upstream event stream
  // ---------------------------------------------------------------------

  /** The content a data line other than `[DONE]` passes on: the truthy
      `choices[0]?.delta?.content`, and nothing where the payload does not
      parse, where `choices[0]` throws, or where the content is falsy. */
  function LineContent(data: string, parse: Parser): Option<Value> {
    match parse(data)
    case None => None
    case Some(parsed) =>
      match Get(parsed, "choices")
      case None => None
      case Some(choices) =>
        match At(choices, 0)
        case None => None
        case Some(first) =>
          var content := GetOpt(GetOpt(first, "delta"), "content");
          if Truthy(content) then Some(content) else None
  }

  predicate IsDoneLine(line: string) {
    IsDataLine(line) && Payload(line) == "[DONE]"
  }

  /** The record one line other than `[DONE]` writes: none or one. */
  function Own(line: string, parse: Parser): seq<Record> {
    if IsDataLine(line) then
      match LineContent(Payload(line), parse) case Some(c) => [ContentRec(c)] case None => []
    else []
  }

  /** What the lines of one chunk write, and whether a `[DONE]` line ended
      the response. */
  datatype Translation = Translation(records: seq<Record>, stopped: bool)

  function TranslateLines(lines: seq<string>, parse: Parser): Translation
    decreases |lines|
  {
    if lines == [] then Translation([], false)
    else if IsDoneLine(lines[0]) then Translation([DoneRec], true)
    else
      var rest := TranslateLines(lines[1..], parse);
      Translation(Own(lines[0], parse) + rest.records, rest.stopped)
  }

  /** The records the relay writes for the line lists of the chunks the
      upstream delivers, `broken` when the read after the last of them
      fails. */
  function RelayLines(chunkLines: seq<seq<string>>, broken: bool, parse: Parser): seq<Record>
    decreases |chunkLines|
  {
    if chunkLines == [] then [if broken then ErrorRec else DoneRec]
    else
      var t := TranslateLines(chunkLines[0], parse);
      if t.stopped then t.records else t.records + RelayLines(chunkLines[1..], broken, parse)
  }

  lemma TranslateDone(lines: seq<string>, j: nat, parse: Parser)
    requires j < |lines| && IsDoneLine(lines[j])
    ensures TranslateLines(lines[j..], parse) == Translation([DoneRec], true)
  {
    assert lines[j..][0] == lines[j];
  }

  /** One line other than `[DONE]` read: what it writes follows what the
      earlier lines wrote. */
  lemma TranslateStep(lines: seq<string>, j: nat, parse: Parser, passed: seq<Record>)
    requires j < |lines| && !IsDoneLine(lines[j])
    requires TranslateLines(lines, parse).records == passed + TranslateLines(lines[j..], parse).records
    requires TranslateLines(lines, parse).stopped == TranslateLines(lines[j..], parse).stopped
    ensures TranslateLines(lines, parse).records
      == (passed + Own(lines[j], parse)) + TranslateLines(lines[j + 1..], parse).records
    ensures TranslateLines(lines, parse).stopped == TranslateLines(lines[j + 1..], parse).stopped
  {
    assert lines[j..][0] == lines[j] && lines[j..][1..] == lines[j + 1..];
    var rest := TranslateLines(lines[j + 1..], parse).records;
    assert TranslateLines(lines[j..], parse).records == Own(lines[j], parse) + rest;
    assert passed + (Own(lines[j], parse) + rest) == (passed + Own(lines[j], parse)) + rest;
  }

  /** The inner loop over the lines of one chunk (lines 131-150): the
      records it writes and whether `[DONE]` ended the response. */
  method TranslateChunk(lines: seq<string>, parse: Parser) returns (written: seq<Record>, stopped: bool)
    ensures written == TranslateLines(lines, parse).records
    ensures stopped == TranslateLines(lines, parse).stopped
  {
    written := [];
    var j := 0;
    while j < |lines|
      invariant 0 <= j <= |lines|
      invariant TranslateLines(lines, parse).stopped == TranslateLines(lines[j..], parse).stopped
      invariant TranslateLines(lines, parse).records == written + TranslateLines(lines[j..], parse).records
    {
      var line := lines[j];
      if IsDataLine(line) {
        var data := Payload(line);
        if data == "[DONE]" {
          TranslateDone(lines, j, parse);
          written := written + [DoneRec];
          stopped := true;
          return;
        }
        TranslateStep(lines, j, parse, written);
        match LineContent(data, parse)
        case Some(content) =>
          assert Own(line, parse) == [ContentRec(content)];
          written := written + [ContentRec(content)];
        case None =>
          assert Own(line, parse) == [];
          assert written + [] == written;
      } else {
        TranslateStep(lines, j, parse, written);
        assert Own(line, parse) == [];
        assert written + [] == written;
      }
      j := j + 1;
    }
    assert lines[j..] == [];
    stopped := false;
  }

  lemma RelayStep(all: seq<seq<string>>, i: nat, broken: bool, parse: Parser, passed: seq<Record>)
    requires i < |all|
    requires RelayLines(all, broken, parse) == passed + RelayLines(all[i..], broken, parse)
    ensures TranslateLines(all[i], parse).stopped ==>
      RelayLines(all, broken, parse) == passed + TranslateLines(all[i], parse).records
    ensures !TranslateLines(all[i], parse).stopped ==>
      RelayLines(all, broken, parse)
        == (passed + TranslateLines(all[i], parse).records) + RelayLines(all[i + 1..], broken, parse)
  {
    var tail := all[i..];
    assert tail[0] == all[i] && tail[1..] == all[i + 1..];
    var t := TranslateLines(all[i], parse);
    var rest := RelayLines(all[i + 1..], broken, parse);
    assert RelayLines(tail, broken, parse) == if t.stopped then t.records else t.records + rest;
    if !t.stopped {
      assert passed + (t.records + rest) == (passed + t.records) + rest;
    }
  }

  /** The outer loop over `reader.read()` (lines 120-156). */
  method RelayStream(chunks: seq<string>, broken: bool, parse: Parser) returns (written: seq<Record>)
    ensures written == RelayLines(ChunkLines(chunks), broken, parse)
  {
    ghost var all := ChunkLines(chunks);
    written := [];
    var i := 0;
    while i < |chunks|
      invariant 0 <= i <= |chunks|
      invariant RelayLines(all, broken, parse) == written + RelayLines(all[i..], broken, parse)
    {
      var lines := Lines(chunks[i]);
      assert lines == all[i];
      RelayStep(all, i, broken, parse, written);
      var records, stopped := TranslateChunk(lines, parse);
      written := written + records;
      if stopped {
        return;
      }
      i := i + 1;
    }
    assert all[i..] == [];
    assert RelayLines(all[i..], broken, parse) == [if broken then ErrorRec else DoneRec];
    written := written + [if broken then ErrorRec else DoneRec];
  }

  // ---------------------------------------------------------------------
  // The handler
  // ---------------------------------------------------------------------

  /** What the upstream service answers: nothing (the request fails), or a
      status with its body read as JSON (`None` where that throws) and as
      the chunks of an event stream, `broken` when reading fails after them. */
  datatype Upstream =
    | Unreachable
    | Response(status: int, json: Option<Value>, chunks: seq<string>, broken: bool)

  /** The upstream call, given the messages and the stream flag it sends. */
  type Fetch = (Value, Value) -> Upstream

  /** The reply of the outer `catch`. */
  function ChatError(): Reply {
    JsonReply(500, ErrorBody(Str("Failed to process chat request"), "CHAT_ERROR"))
  }

  predicate Ok(status: int) {
    200 <= status < 300
  }

  /** An upstream failure passed on with its own status, or `None` where
      reading its body throws. */
  function UpstreamError(status: int, json: Option<Value>): Option<Reply> {
    match json
    case None => None
    case Some(error) =>
      match Get(error, "error")
      case None => None
      case Some(detail) =>
        var message := GetOpt(detail, "message");
        Some(JsonReply(status, ErrorBody(if Truthy(message) then message else Str("API request failed"), "API_ERROR")))
  }

  /** `data.choices[0].message.content`, `None` where it throws. */
  function ReplyContent(data: Value): Option<Value> {
    match Get(data, "choices")
    case None => None
    case Some(choices) =>
      match At(choices, 0)
      case None => None
      case Some(first) =>
        match Get(first, "message")
        case None => None
        case Some(message) => Get(message, "content")
  }

  /** What the relay answers once the request has been accepted. */
  function Answer(upstream: Upstream, stream: Value, parse: Parser): Reply {
    match upstream
    case Unreachable => ChatError()
    case Response(status, json, chunks, broken) =>
      if !Ok(status) then
        match UpstreamError(status, json) case None => ChatError() case Some(r) => r
      else if Truthy(stream) then EventStream(StreamText(RelayLines(ChunkLines(chunks), broken, parse)))
      else
        match json
        case None => ChatError()
        case Some(data) =>
          match ReplyContent(data)
          case None => ChatError()
          case Some(content) => JsonReply(200, Obj([Field("content", content), Field("done", Bool(true))]))
  }

  /** The messages the relay goes on with, `None` where it throws first. */
  function Messages(req: Request, intake: Intake): Option<Value> {
    if |req.files| > 0 then Normalise(intake.messages, req.files) else Some(intake.messages)
  }

  /** The whole handler. */
  function Handle(req: Request, parse: Parser, fetch: Fetch): Reply {
    match Receive(req, parse)
    case None => NoReply
    case Some(intake) =>
      match Messages(req, intake)
      case None => NoReply
      case Some(messages) =>
        if Refused(messages) then InvalidRequest()
        else Answer(fetch(messages, intake.stream), intake.stream, parse)
  }
}

/** The chat widget (class `AIChatbot` in portable-chatbot.js): its state,
    the operations that change it, and how it reads the relay's event
    stream into an assistant reply. */
module Widget {
  import opened Wrappers
  import opened Strings
  import opened Json
  import opened Wire
  import opened Api

  /** A file picked in the browser; only its name is read here. */
  datatype PickedFile = PickedFile(name: string, bytes: seq<byte>)

  /** An entry of `messages`. */
  datatype Message = Message(role: string, content: string)

  /** A child of the message list: a message bubble with the text it
      renders, or an error notice. */
  datatype Bubble = Said(role: string, text: string) | Notice(text: string)

  /** The part of the state a conversation changes. */
  datatype Screen = Screen(messages: seq<Message>, bubbles: seq<Bubble>, loading: bool)

  datatype Point = Point(x: int, y: int)

  /** Where a resize started: the mouse and the window's size. */
  datatype Anchor = Anchor(x: int, y: int, width: int, height: int)

  /** The part of the state the window's chrome changes. */
  datatype Layout = Layout(isOpen: bool, theme: string, isDragging: bool, dragOffset: Point,
                           isResizing: bool, resizeStart: Anchor, left: int, top: int, width: int, height: int)

  const MaxFiles: nat := 5
  const TooManyFiles: string := "Maximum 5 files allowed"
  const SendFailed: string := "Failed to send message. Please try again."
  const MinWidth: int := 320
  const MinHeight: int := 400

  /** The text between the message and the file names. The source file
      holds the UTF-8 bytes of a paperclip emoji read once more as
      Windows-1252, so the string has these four characters. */
  const AttachedMarker: string := "\n\n\U{F0}\U{178}\U{201C}\U{17D} Attached files: "

  // ---------------------------------------------------------------------
  // Files
  // ---------------------------------------------------------------------

  function Min(a: int, b: int): int { if a < b then a else b }
  function Max(a: int, b: int): int { if a < b then b else a }

  /** How many of `n` arriving files fit beside `count` attached ones. */
  function Room(count: nat, n: nat): nat {
    if count >= MaxFiles then 0 else Min(MaxFiles - count, n)
  }

  /** One notice per refused file. */
  function Notices(n: nat): (r: seq<Bubble>)
    ensures |r| == n && forall i :: 0 <= i < n ==> r[i] == Notice(TooManyFiles)
  {
    if n == 0 then [] else Notices(n - 1) + [Notice(TooManyFiles)]
  }

  /** Where `splice(start, 1)` removes an element: `start` counted from the
      end when negative, clipped to the length. */
  function SpliceStart(len: nat, start: int): nat {
    if start < 0 then (if len + start < 0 then 0 else len + start) else Min(start, len)
  }

  /** `files.splice(start, 1)` on a copy. */
  function Spliced<T>(s: seq<T>, start: int): seq<T> {
    var a := SpliceStart(|s|, start);
    if a < |s| then s[..a] + s[a + 1..] else s
  }

  // ---------------------------------------------------------------------
  // Chrome
  // ---------------------------------------------------------------------

  function NextTheme(theme: string): string {
    if theme == "light" then "dark" else "light"
  }

  /** `Math.max(0, Math.min(v, hi))`. */
  function Clamp(v: int, hi: int): int {
    Max(0, Min(v, hi))
  }

  // ---------------------------------------------------------------------
  // Messages
  // ---------------------------------------------------------------------

  predicate LastIsAssistant(bubbles: seq<Bubble>) {
    bubbles != [] && bubbles[|bubbles| - 1] == Said("assistant", bubbles[|bubbles| - 1].text)
  }

  /** `addMessage`: an entry and its bubble. */
  function AddMessage(s: Screen, role: string, content: string): Screen {
    s.(messages := s.messages + [Message(role, content)], bubbles := s.bubbles + [Said(role, content)])
  }

  /** `updateAssistantMessage`: the last bubble shows the text when it is
      an assistant bubble; otherwise the text is added as a new message. */
  function UpdateAssistant(s: Screen, text: string): Screen {
    if LastIsAssistant(s.bubbles) then s.(bubbles := s.bubbles[..|s.bubbles| - 1] + [Said("assistant", text)])
    else AddMessage(s, "assistant", text)
  }

  /** `finalizeAssistantMessage`: the reply is pushed as an entry. */
  function Finalize(s: Screen, text: string): Screen {
    s.(messages := s.messages + [Message("assistant", text)])
  }

  /** `showError`. The notice's removal five seconds later is not
      modelled. */
  function ShowNotice(s: Screen, text: string): Screen {
    s.(bubbles := s.bubbles + [Notice(text)])
  }

  /** Whether `sendMessage` returns at once. */
  predicate Blocked(draft: string, attached: nat, loading: bool) {
    (Trim(draft) == [] && attached == 0) || loading
  }

  /** The text of the user's message, from the trimmed input `message`. */
  function UserText(message: string, files: seq<PickedFile>): string {
    if |files| > 0 then message + AttachedMarker + Join(Names(files), ", ") else message
  }

  function Names(files: seq<PickedFile>): (r: seq<string>)
    ensures |r| == |files| && forall k :: 0 <= k < |files| ==> r[k] == files[k].name
  {
    if files == [] then [] else [files[0].name] + Names(files[1..])
  }

  // ---------------------------------------------------------------------
  // Reading the event stream
  // ---------------------------------------------------------------------

  /** What one line does: nothing, or a record with its truthy `content`
      (if any) and its `done` flag. A line that is not a data line, a
      payload that does not parse, a payload whose `content` cannot be read
      (`null`), and a truthy `content` whose conversion to a string throws
      all do nothing: the `catch` swallows the error before `done` is read. */
  datatype LineEvent = Ignored | Data(content: Option<Value>, done: bool)

  function ReadLine(line: string, parse: Parser): LineEvent {
    if !IsDataLine(line) then Ignored
    else
      match parse(Payload(line))
      case None => Ignored
      case Some(data) =>
        match Get(data, "content")
        case None => Ignored
        case Some(c) =>
          if Truthy(c) && ConversionThrows(c) then Ignored
          else Data(if Truthy(c) then Some(c) else None, Truthy(GetOpt(data, "done")))
  }

  /** The screen, the reply gathered so far, and whether a `done` record
      ended the reading. */
  datatype Reading = Reading(screen: Screen, reply: string, stopped: bool)

  /** A truthy `content` appended to the reply, which is then shown. */
  function Absorb(r: Reading, content: Option<Value>): Reading {
    match content
    case None => r
    case Some(c) =>
      var reply := r.reply + ToJsString(c);
      Reading(UpdateAssistant(r.screen, reply), reply, r.stopped)
  }

  /** The `done` record: the reply is finalized and loading ends. */
  function Finish(r: Reading): Reading {
    Reading(Finalize(r.screen, r.reply).(loading := false), r.reply, true)
  }

  /** The lines of one chunk read in order, up to a `done` record. */
  function ReadLines(r: Reading, lines: seq<string>, parse: Parser): Reading
    decreases |lines|
  {
    if lines == [] then r
    else
      match ReadLine(lines[0], parse)
      case Ignored => ReadLines(r, lines[1..], parse)
      case Data(c, done) =>
        var r1 := Absorb(r, c);
        if done then Finish(r1) else ReadLines(r1, lines[1..], parse)
  }

  /** One line read: what it adds, and whether it was the `done` record. */
  function Step(r: Reading, line: string, parse: Parser): Reading {
    match ReadLine(line, parse)
    case Ignored => r
    case Data(c, done) => if done then Finish(Absorb(r, c)) else Absorb(r, c)
  }

  /** Reading the lines is reading the first, then the rest unless it
      stopped. */
  lemma StepThenRest(r: Reading, lines: seq<string>, parse: Parser)
    requires lines != [] && !r.stopped
    ensures ReadLines(r, lines, parse)
      == if Step(r, lines[0], parse).stopped then Step(r, lines[0], parse)
         else ReadLines(Step(r, lines[0], parse), lines[1..], parse)
  {
  }

  /** A failed read: the error notice, and loading ends. */
  function Fail(r: Reading): Reading {
    Reading(ShowNotice(r.screen, SendFailed).(loading := false), r.reply, r.stopped)
  }

  /** The chunks read in order, each split into its lines on its own;
      `broken` when the read after the last of them fails. */
  function ReadChunks(r: Reading, all: seq<seq<string>>, broken: bool, parse: Parser): Reading
    decreases |all|
  {
    if all == [] then (if broken then Fail(r) else r)
    else
      var r1 := ReadLines(r, all[0], parse);
      if r1.stopped then r1 else ReadChunks(r1, all[1..], broken, parse)
  }

  /** What the relay answers `fetch` with: a failure (the request fails or
      the status is not ok), or the chunks of the body, `broken` when the
      read after them fails. */
  datatype Served = Refusal | Body(chunks: seq<string>, broken: bool)

  /** The relay, given the messages and the files sent. */
  type Server = (seq<Message>, seq<PickedFile>) -> Served

  /** Everything after the request is sent. */
  function Outcome(s: Screen, served: Served, parse: Parser): Screen {
    match served
    case Refusal => ShowNotice(s, SendFailed).(loading := false)
    case Body(chunks, broken) => ReadChunks(Reading(s, "", false), ChunkLines(chunks), broken, parse).screen
  }

  /** The screen once the user's message is added and loading begins. */
  function Sent(s: Screen, content: string): Screen {
    AddMessage(s, "user", content).(loading := true)
  }

  // ---------------------------------------------------------------------
  // The transcript
  // ---------------------------------------------------------------------

  /** `toUpperCase` on the ASCII letters, which is all a role holds. */
  function Upper(s: string): (r: string)
    ensures |r| == |s|
    ensures forall i :: 0 <= i < |s| ==> r[i] == if 'a' <= s[i] <= 'z' then (s[i] as int - 32) as char else s[i]
  {
    if s == [] then []
    else [if 'a' <= s[0] <= 'z' then (s[0] as int - 32) as char else s[0]] + Upper(s[1..])
  }

  function TranscriptEntry(m: Message): string {
    Upper(m.role) + ": " + m.content
  }

  function TranscriptEntries(messages: seq<Message>): (r: seq<string>)
    ensures |r| == |messages| && forall k :: 0 <= k < |messages| ==> r[k] == TranscriptEntry(messages[k])
  {
    if messages == [] then [] else [TranscriptEntry(messages[0])] + TranscriptEntries(messages[1..])
  }

  const TranscriptSeparator: string := "\n\n---\n\n"

  /** The text `downloadChat` saves. */
  function Transcript(messages: seq<Message>): string {
    Join(TranscriptEntries(messages), TranscriptSeparator)
  }

  // ---------------------------------------------------------------------
  // The widget
  // ---------------------------------------------------------------------

  class Chatbot {
    var messages: seq<Message>
    var bubbles: seq<Bubble>
    var attachedFiles: seq<PickedFile>
    var isOpen: bool
    var theme: string
    var isLoading: bool
    /** The text in the input box. */
    var draft: string
    var isDragging: bool
    var dragOffset: Point
    var isResizing: bool
    var resizeStart: Anchor
    /** The window's position and size, in pixels. */
    var left: int
    var top: int
    var width: int
    var height: int

    ghost predicate Valid()
      reads this
    {
      |attachedFiles| <= MaxFiles
    }

    function View(): Screen
      reads this
    {
      Screen(messages, bubbles, isLoading)
    }

    function Chrome(): Layout
      reads this
    {
      Layout(isOpen, theme, isDragging, dragOffset, isResizing, resizeStart, left, top, width, height)
    }

    /** A new widget; the saved state is not loaded here. */
    constructor(initialTheme: string, left0: int, top0: int, width0: int, height0: int)
      ensures Valid()
      ensures messages == [] && bubbles == [] && attachedFiles == [] && draft == []
      ensures !isOpen && !isLoading && !isDragging && !isResizing
      ensures theme == if initialTheme == [] then "light" else initialTheme
      ensures dragOffset == Point(0, 0) && resizeStart == Anchor(0, 0, 0, 0)
      ensures left == left0 && top == top0 && width == width0 && height == height0
    {
      messages := [];
      bubbles := [];
      attachedFiles := [];
      isOpen := false;
      theme := if initialTheme == [] then "light" else initialTheme;
      isLoading := false;
      draft := [];
      isDragging := false;
      dragOffset := Point(0, 0);
      isResizing := false;
      resizeStart := Anchor(0, 0, 0, 0);
      left, top, width, height := left0, top0, width0, height0;
    }

    // -- files --

    method ShowError(text: string)
      modifies this
      ensures View() == ShowNotice(old(View()), text)
      ensures Chrome() == old(Chrome()) && attachedFiles == old(attachedFiles) && draft == old(draft)
    {
      bubbles := bubbles + [Notice(text)];
    }

    /** `handleFiles`: files are attached in order while fewer than five
        are; each one past that adds a notice instead. */
    method HandleFiles(files: seq<PickedFile>)
      requires Valid()
      modifies this
      ensures Valid()
      ensures attachedFiles == old(attachedFiles) + files[..Room(|old(attachedFiles)|, |files|)]
      ensures bubbles == old(bubbles) + Notices(|files| - Room(|old(attachedFiles)|, |files|))
      ensures messages == old(messages) && isLoading == old(isLoading)
      ensures Chrome() == old(Chrome()) && draft == old(draft)
    {
      var i := 0;
      while i < |files|
        invariant 0 <= i <= |files|
        invariant attachedFiles == old(attachedFiles) + files[..Room(|old(attachedFiles)|, i)]
        invariant bubbles == old(bubbles) + Notices(i - Room(|old(attachedFiles)|, i))
        invariant messages == old(messages) && isLoading == old(isLoading)
        invariant Chrome() == old(Chrome()) && draft == old(draft)
      {
        if |attachedFiles| >= MaxFiles {
          ShowError(TooManyFiles);
        } else {
          attachedFiles := attachedFiles + [files[i]];
          assert files[..i + 1] == files[..i] + [files[i]];
        }
        i := i + 1;
      }
    }

    /** The remove button of file `index`: `splice(index, 1)`. */
    method RemoveFile(index: int)
      requires Valid()
      modifies this
      ensures Valid()
      ensures attachedFiles == Spliced(old(attachedFiles), index)
      ensures View() == old(View()) && Chrome() == old(Chrome()) && draft == old(draft)
    {
      attachedFiles := Spliced(attachedFiles, index);
    }

    // -- chrome --

    method ToggleTheme()
      modifies this
      ensures Chrome() == old(Chrome()).(theme := NextTheme(old(theme)))
      ensures View() == old(View()) && attachedFiles == old(attachedFiles) && draft == old(draft)
    {
      theme := if theme == "light" then "dark" else "light";
    }

    method Open()
      modifies this
      ensures Chrome() == old(Chrome()).(isOpen := true)
      ensures View() == old(View()) && attachedFiles == old(attachedFiles) && draft == old(draft)
    {
      isOpen := true;
    }

    method Close()
      modifies this
      ensures Chrome() == old(Chrome()).(isOpen := false)
      ensures View() == old(View()) && attachedFiles == old(attachedFiles) && draft == old(draft)
    {
      isOpen := false;
    }

    method Toggle()
      modifies this
      ensures Chrome() == old(Chrome()).(isOpen := !old(isOpen))
      ensures View() == old(View()) && attachedFiles == old(attachedFiles) && draft == old(draft)
    {
      if isOpen {
        Close();
      } else {
        Open();
      }
    }

    /** A press on the header, `onButton` when it is on one of its
        buttons; `rectLeft` and `rectTop` are where the window is. */
    method StartDrag(onButton: bool, clientX: int, clientY: int, rectLeft: int, rectTop: int)
      modifies this
      ensures onButton ==> Chrome() == old(Chrome())
      ensures !onButton ==>
        Chrome() == old(Chrome()).(isDragging := true, dragOffset := Point(clientX - rectLeft, clientY - rectTop))
      ensures View() == old(View()) && attachedFiles == old(attachedFiles) && draft == old(draft)
    {
      if onButton {
        return;
      }
      isDragging := true;
      dragOffset := Point(clientX - rectLeft, clientY - rectTop);
    }

    /** A mouse move while dragging: the window follows the mouse,
        kept inside the viewport. */
    method Drag(clientX: int, clientY: int, innerWidth: int, innerHeight: int, offsetWidth: int, offsetHeight: int)
      modifies this
      ensures !old(isDragging) ==> Chrome() == old(Chrome())
      ensures old(isDragging) ==> Chrome() == old(Chrome()).(
        left := Clamp(clientX - old(dragOffset).x, innerWidth - offsetWidth),
        top := Clamp(clientY - old(dragOffset).y, innerHeight - offsetHeight))
      ensures View() == old(View()) && attachedFiles == old(attachedFiles) && draft == old(draft)
    {
      if !isDragging {
        return;
      }
      var x := clientX - dragOffset.x;
      var y := clientY - dragOffset.y;
      var maxX := innerWidth - offsetWidth;
      var maxY := innerHeight - offsetHeight;
      left := Max(0, Min(x, maxX));
      top := Max(0, Min(y, maxY));
    }

    method EndDrag()
      modifies this
      ensures Chrome() == old(Chrome()).(isDragging := false)
      ensures View() == old(View()) && attachedFiles == old(attachedFiles) && draft == old(draft)
    {
      isDragging := false;
    }

    method StartResize(clientX: int, clientY: int, offsetWidth: int, offsetHeight: int)
      modifies this
      ensures Chrome() == old(Chrome()).(isResizing := true, resizeStart := Anchor(clientX, clientY, offsetWidth, offsetHeight))
      ensures View() == old(View()) && attachedFiles == old(attachedFiles) && draft == old(draft)
    {
      isResizing := true;
      resizeStart := Anchor(clientX, clientY, offsetWidth, offsetHeight);
    }

    /** A mouse move while resizing: the size follows the mouse, never
        below 320 by 400. */
    method Resize(clientX: int, clientY: int)
      modifies this
      ensures !old(isResizing) ==> Chrome() == old(Chrome())
      ensures old(isResizing) ==> Chrome() == old(Chrome()).(
        width := Max(MinWidth, old(resizeStart).width + (clientX - old(resizeStart).x)),
        height := Max(MinHeight, old(resizeStart).height + (clientY - old(resizeStart).y)))
      ensures View() == old(View()) && attachedFiles == old(attachedFiles) && draft == old(draft)
    {
      if !isResizing {
        return;
      }
      var w := resizeStart.width + (clientX - resizeStart.x);
      var h := resizeStart.height + (clientY - resizeStart.y);
      width := Max(MinWidth, w);
      height := Max(MinHeight, h);
    }

    method EndResize()
      modifies this
      ensures Chrome() == old(Chrome()).(isResizing := false)
      ensures View() == old(View()) && attachedFiles == old(attachedFiles) && draft == old(draft)
    {
      isResizing := false;
    }

    // -- messages --

    method AddMessageTo(role: string, content: string)
      modifies this
      ensures View() == AddMessage(old(View()), role, content)
      ensures Chrome() == old(Chrome()) && attachedFiles == old(attachedFiles) && draft == old(draft)
    {
      messages := messages + [Message(role, content)];
      bubbles := bubbles + [Said(role, content)];
    }

    method UpdateAssistantMessage(content: string)
      modifies this
      ensures View() == UpdateAssistant(old(View()), content)
      ensures Chrome() == old(Chrome()) && attachedFiles == old(attachedFiles) && draft == old(draft)
    {
      if LastIsAssistant(bubbles) {
        bubbles := bubbles[..|bubbles| - 1] + [Said("assistant", content)];
      } else {
        AddMessageTo("assistant", content);
      }
    }

    method FinalizeAssistantMessage(content: string)
      modifies this
      ensures View() == Finalize(old(View()), content)
      ensures Chrome() == old(Chrome()) && attachedFiles == old(attachedFiles) && draft == old(draft)
    {
      messages := messages + [Message("assistant", content)];
    }

    method SetLoading(loading: bool)
      modifies this
      ensures View() == old(View()).(loading := loading)
      ensures Chrome() == old(Chrome()) && attachedFiles == old(attachedFiles) && draft == old(draft)
    {
      isLoading := loading;
    }

    /** The body of the inner loop for one line. */
    method ReadOneLine(line: string, parse: Parser, reply: string) returns (reply': string, stop: bool)
      modifies this
      ensures Reading(View(), reply', stop) == Step(Reading(old(View()), reply, false), line, parse)
      ensures Chrome() == old(Chrome()) && attachedFiles == old(attachedFiles) && draft == old(draft)
    {
      reply', stop := reply, false;
      if IsDataLine(line) {
        match parse(Payload(line)) {
          case None =>
          case Some(data) =>
            match Get(data, "content") {
              case None =>
              case Some(content) =>
                if Truthy(content) && ConversionThrows(content) {
                  // the `+=` throws and the `catch` ends this line
                } else {
                  if Truthy(content) {
                    reply' := reply' + ToJsString(content);
                    UpdateAssistantMessage(reply');
                  }
                  if Truthy(GetOpt(data, "done")) {
                    FinalizeAssistantMessage(reply');
                    SetLoading(false);
                    stop := true;
                  }
                }
            }
        }
      }
    }

    /** The read loop of `sendMessage`: chunk after chunk, line after line,
        until a `done` record or the end of the body. */
    method ReadStream(chunks: seq<string>, broken: bool, parse: Parser)
      modifies this
      ensures View() == ReadChunks(Reading(old(View()), "", false), ChunkLines(chunks), broken, parse).screen
      ensures Chrome() == old(Chrome()) && attachedFiles == old(attachedFiles) && draft == old(draft)
    {
      ghost var all := ChunkLines(chunks);
      ghost var goal := ReadChunks(Reading(View(), "", false), all, broken, parse);
      var assistantMessage := "";
      var i := 0;
      while i < |chunks|
        invariant 0 <= i <= |chunks|
        invariant goal == ReadChunks(Reading(View(), assistantMessage, false), all[i..], broken, parse)
        invariant Chrome() == old(Chrome()) && attachedFiles == old(attachedFiles) && draft == old(draft)
      {
        var lines := Lines(chunks[i]);
        assert all[i..][0] == lines && all[i..][1..] == all[i + 1..];
        ghost var chunkEnd := ReadLines(Reading(View(), assistantMessage, false), lines, parse);
        assert !chunkEnd.stopped ==> goal == ReadChunks(chunkEnd, all[i + 1..], broken, parse);
        assert chunkEnd.stopped ==> goal == chunkEnd;
        var j := 0;
        while j < |lines|
          invariant 0 <= j <= |lines|
          invariant chunkEnd == ReadLines(Reading(View(), assistantMessage, false), lines[j..], parse)
          invariant Chrome() == old(Chrome()) && attachedFiles == old(attachedFiles) && draft == old(draft)
        {
          assert lines[j..][0] == lines[j] && lines[j..][1..] == lines[j + 1..];
          StepThenRest(Reading(View(), assistantMessage, false), lines[j..], parse);
          var stop;
          assistantMessage, stop := ReadOneLine(lines[j], parse, assistantMessage);
          if stop {
            return;
          }
          j := j + 1;
        }
        assert lines[j..] == [];
        i := i + 1;
      }
      assert all[i..] == [];
      if broken {
        ShowError(SendFailed);
        SetLoading(false);
      }
    }

    /** `sendMessage`: nothing when the input is blank with no files, or
        while a reply is loading; otherwise the user's message is added,
        the input and the attachments are cleared, loading begins, and the
        relay's answer is read. */
    method SendMessage(parse: Parser, server: Server)
      requires Valid()
      modifies this
      ensures Valid() && Chrome() == old(Chrome())
      ensures Blocked(old(draft), |old(attachedFiles)|, old(isLoading)) ==>
        View() == old(View()) && attachedFiles == old(attachedFiles) && draft == old(draft)
      ensures !Blocked(old(draft), |old(attachedFiles)|, old(isLoading)) ==>
        attachedFiles == [] && draft == [] &&
        View() == Outcome(Sent(old(View()), UserText(Trim(old(draft)), old(attachedFiles))),
                          server(Sent(old(View()), UserText(Trim(old(draft)), old(attachedFiles))).messages, old(attachedFiles)),
                          parse)
    {
      var message := Trim(draft);
      if message == [] && |attachedFiles| == 0 {
        return;
      }
      if isLoading {
        return;
      }
      var content := message;
      if |attachedFiles| > 0 {
        content := message + AttachedMarker + Join(Names(attachedFiles), ", ");
      }
      Submit(content, parse, server);
    }

    /** The rest of `sendMessage` once the text `content` is built: the
        user's message is added, the input and the attachments are cleared,
        loading begins, and the relay's answer to the history and the
        attachments is read. */
    method Submit(content: string, parse: Parser, server: Server)
      requires Valid()
      modifies this
      ensures Valid() && Chrome() == old(Chrome())
      ensures attachedFiles == [] && draft == []
      ensures View() == Outcome(Sent(old(View()), content),
                                server(Sent(old(View()), content).messages, old(attachedFiles)), parse)
    {
      ghost var sent := Sent(View(), content);
      ghost var files := attachedFiles;
      AddMessageTo("user", content);
      ghost var chrome := Chrome();
      draft := [];
      var filesToSend := attachedFiles;
      attachedFiles := [];
      assert Chrome() == chrome;
      SetLoading(true);
      assert View() == sent && Chrome() == old(Chrome());
      var served := server(messages, filesToSend);
      assert served == server(sent.messages, files);
      match served {
        case Refusal =>
          ShowError(SendFailed);
          SetLoading(false);
          assert View() == Outcome(sent, served, parse);
        case Body(chunks, broken) =>
          ReadStream(chunks, broken, parse);
          assert View() == Outcome(sent, served, parse);
      }
    }
  }
}

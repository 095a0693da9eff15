/** What the widget promises: at most five attachments, a removal that
    removes one file, the window kept on screen, and a reply that is the
    stream's content up to its `done` record. */
module WidgetProperties {
  import opened Wrappers
  import opened Strings
  import opened Json
  import opened Wire
  import opened Api
  import opened Widget

  // ---------------------------------------------------------------------
  // Files
  // ---------------------------------------------------------------------

  /** Starting from at most five files, the arrivals fill the free places
      and no more; every file past them gets one notice. */
  lemma FileCap(count: nat, n: nat)
    requires count <= MaxFiles
    ensures count + Room(count, n) == Min(MaxFiles, count + n)
    ensures n - Room(count, n) == Max(0, count + n - MaxFiles)
  {
  }

  /** `splice(start, 1)` on a non-empty list removes the one element at its
      start and keeps the others in order; on an empty list it does
      nothing. */
  lemma SplicedRemovesOne<T>(s: seq<T>, start: int)
    ensures s == [] ==> Spliced(s, start) == s
    ensures s != [] ==> SpliceStart(|s|, start) < |s| ==>
      |Spliced(s, start)| == |s| - 1
      && multiset(Spliced(s, start)) + multiset{s[SpliceStart(|s|, start)]} == multiset(s)
    ensures forall k :: 0 <= k < SpliceStart(|s|, start) && k < |Spliced(s, start)| ==> Spliced(s, start)[k] == s[k]
    ensures forall k :: SpliceStart(|s|, start) <= k < |s| - 1 ==> Spliced(s, start)[k] == s[k + 1]
  {
    var a := SpliceStart(|s|, start);
    if a < |s| {
      assert s == s[..a] + [s[a]] + s[a + 1..];
    }
  }

  /** The index a valid or negative `start` selects. */
  lemma SpliceIndex(len: nat, start: int)
    ensures 0 <= start < len ==> SpliceStart(len, start) == start
    ensures 0 <= len + start && start < 0 ==> SpliceStart(len, start) == len + start
    ensures start >= len ==> SpliceStart(len, start) == len
  {
  }

  // ---------------------------------------------------------------------
  // Chrome
  // ---------------------------------------------------------------------

  /** Toggling gives one of the two themes, never the same one, and
      toggling twice gives back a theme that was one of them. */
  lemma ThemeToggles(theme: string)
    ensures NextTheme(theme) == "light" || NextTheme(theme) == "dark"
    ensures NextTheme(theme) != theme
    ensures (theme == "light" || theme == "dark") ==> NextTheme(NextTheme(theme)) == theme
  {
    assert "light" != "dark";
  }

  /** The clamped coordinate keeps the window on screen: it is the point of
      `[0, hi]` nearest to `v` when that range is not empty, and 0
      otherwise. */
  lemma ClampNearest(v: int, hi: int, w: int)
    ensures 0 <= Clamp(v, hi)
    ensures hi < 0 ==> Clamp(v, hi) == 0
    ensures 0 <= hi ==> Clamp(v, hi) <= hi
    ensures 0 <= v <= hi ==> Clamp(v, hi) == v
    ensures 0 <= w <= hi ==> Dist(Clamp(v, hi), v) <= Dist(w, v)
  {
  }

  function Dist(a: int, b: int): nat {
    if a < b then b - a else a - b
  }

  // ---------------------------------------------------------------------
  // The stream, line by line
  // ---------------------------------------------------------------------

  /** The text a truthy `content` adds to the reply. */
  function TextOf(c: Option<Value>): string {
    match c case None => [] case Some(v) => ToJsString(v)
  }

  /** The truthy `content` texts of the lines, in order, up to and
      including the first `done` record. */
  function Gathered(lines: seq<string>, parse: Parser): string
    decreases |lines|
  {
    if lines == [] then []
    else
      match ReadLine(lines[0], parse)
      case Ignored => Gathered(lines[1..], parse)
      case Data(c, done) => TextOf(c) + (if done then [] else Gathered(lines[1..], parse))
  }

  /** Some line is a `done` record. */
  predicate Finished(lines: seq<string>, parse: Parser)
    decreases |lines|
  {
    lines != [] &&
    match ReadLine(lines[0], parse)
    case Data(_, true) => true
    case _ => Finished(lines[1..], parse)
  }

  /** The first truthy `content` text before or at the first `done`. */
  function FirstText(lines: seq<string>, parse: Parser): Option<string>
    decreases |lines|
  {
    if lines == [] then None
    else
      match ReadLine(lines[0], parse)
      case Ignored => FirstText(lines[1..], parse)
      case Data(Some(v), _) => Some(ToJsString(v))
      case Data(None, done) => if done then None else FirstText(lines[1..], parse)
  }

  lemma {:induction false} NothingGathered(lines: seq<string>, parse: Parser)
    requires FirstText(lines, parse).None?
    ensures Gathered(lines, parse) == []
    decreases |lines|
  {
    if lines != [] {
      match ReadLine(lines[0], parse)
      case Ignored => NothingGathered(lines[1..], parse);
      case Data(c, done) =>
        if !done {
          NothingGathered(lines[1..], parse);
        }
    }
  }

  /** A record whose truthy `content` cannot be converted to a string
      changes nothing and is not a `done` record, whatever its `done` field
      says: the `+=` throws before `done` is read. */
  lemma ThrowingContentSkipped(r: Reading, line: string, parse: Parser, data: Value, c: Value)
    requires IsDataLine(line) && parse(Payload(line)) == Some(data) && Get(data, "content") == Some(c)
    requires Truthy(c) && ConversionThrows(c)
    ensures Step(r, line, parse) == r
    ensures !Finished([line], parse) && Gathered([line], parse) == []
  {
    assert [line][1..] == [];
  }

  /** The reply is the gathered text, the reading stops exactly at a
      `done` record, and loading ends exactly then. */
  lemma ReadLinesReply(r: Reading, lines: seq<string>, parse: Parser, q: Reading)
    requires !r.stopped && q == ReadLines(r, lines, parse)
    ensures q.reply == r.reply + Gathered(lines, parse)
    ensures q.stopped == Finished(lines, parse)
    ensures q.screen.loading == (r.screen.loading && !Finished(lines, parse))
  {
    ReadLinesGathers(r, lines, parse, q);
    ReadLinesFinishes(r, lines, parse, q);
  }

  lemma {:induction false} ReadLinesGathers(r: Reading, lines: seq<string>, parse: Parser, q: Reading)
    requires !r.stopped && q == ReadLines(r, lines, parse)
    ensures q.reply == r.reply + Gathered(lines, parse)
    decreases |lines|
  {
    if lines == [] {
      assert r.reply + [] == r.reply;
    } else {
      var rest := lines[1..];
      match ReadLine(lines[0], parse)
      case Ignored =>
        assert q == ReadLines(r, rest, parse);
        assert Gathered(lines, parse) == Gathered(rest, parse);
        ReadLinesGathers(r, rest, parse, q);
      case Data(c, done) =>
        AbsorbKeeps(r, c);
        ReadDataLine(r, lines, parse, q, c, done);
        if !done {
          var r1 := Absorb(r, c);
          ReadLinesGathers(r1, rest, parse, q);
          ExtendThenGather(q.reply, r.reply, TextOf(c), Gathered(rest, parse), r1.reply, Gathered(lines, parse));
        }
    }
  }

  /** A reply extended by a text and then by more text is the reply
      extended by both. */
  lemma ExtendThenGather(out: string, reply: string, text: string, more: string, extended: string, all: string)
    requires extended == reply + text && out == extended + more && all == text + more
    ensures out == reply + all
  {
  }

  lemma {:induction false} ReadLinesFinishes(r: Reading, lines: seq<string>, parse: Parser, q: Reading)
    requires !r.stopped && q == ReadLines(r, lines, parse)
    ensures q.stopped == Finished(lines, parse)
    ensures q.screen.loading == (r.screen.loading && !Finished(lines, parse))
    decreases |lines|
  {
    if lines != [] {
      var rest := lines[1..];
      match ReadLine(lines[0], parse)
      case Ignored =>
        assert q == ReadLines(r, rest, parse);
        assert Finished(lines, parse) == Finished(rest, parse);
        ReadLinesFinishes(r, rest, parse, q);
      case Data(c, done) =>
        AbsorbKeeps(r, c);
        ReadDataLine(r, lines, parse, q, c, done);
        if !done {
          ReadLinesFinishes(Absorb(r, c), rest, parse, q);
        }
    }
  }

  /** A data line read: a `done` record finishes the reading, any other
      goes on with the rest of the lines. */
  lemma ReadDataLine(r: Reading, lines: seq<string>, parse: Parser, q: Reading, c: Option<Value>, done: bool)
    requires lines != [] && ReadLine(lines[0], parse) == Data(c, done)
    requires q == ReadLines(r, lines, parse)
    ensures done ==> q == Finish(Absorb(r, c)) && Gathered(lines, parse) == TextOf(c) && Finished(lines, parse)
    ensures !done ==>
      && q == ReadLines(Absorb(r, c), lines[1..], parse)
      && Gathered(lines, parse) == TextOf(c) + Gathered(lines[1..], parse)
      && Finished(lines, parse) == Finished(lines[1..], parse)
  {
    if done {
      assert TextOf(c) + [] == TextOf(c);
    }
  }

  /** Absorbing a record extends the reply by its text and keeps the
      stopped and loading flags. */
  lemma AbsorbKeeps(r: Reading, c: Option<Value>)
    ensures Absorb(r, c).reply == r.reply + TextOf(c)
    ensures Absorb(r, c).stopped == r.stopped
    ensures Absorb(r, c).screen.loading == r.screen.loading
  {
    match c
    case None =>
      assert r.reply + [] == r.reply;
    case Some(v) =>
  }

  /** The partial reply `updateAssistantMessage` pushes when the last
      bubble is not an assistant bubble. */
  function Partial(r: Reading, lines: seq<string>, parse: Parser): seq<Message> {
    if !LastIsAssistant(r.screen.bubbles) && FirstText(lines, parse).Some? then
      [Message("assistant", r.reply + FirstText(lines, parse).value)]
    else []
  }

  /** The entries pushed: the partial reply at the first update when the
      last bubble was not an assistant bubble, and the full reply at the
      `done` record. */
  lemma {:induction false} ReadLinesMessages(r: Reading, lines: seq<string>, parse: Parser, q: Reading)
    requires !r.stopped && q == ReadLines(r, lines, parse)
    ensures q.screen.messages == r.screen.messages + Partial(r, lines, parse)
      + (if Finished(lines, parse) then [Message("assistant", q.reply)] else [])
    decreases |lines|
  {
    if lines == [] {
      assert r.screen.messages + [] + [] == r.screen.messages;
    } else {
      match ReadLine(lines[0], parse)
      case Ignored =>
        ReadLinesMessages(r, lines[1..], parse, q);
      case Data(None, done) =>
        if done {
          assert Partial(r, lines, parse) == [];
          assert r.screen.messages + [] == r.screen.messages;
        } else {
          ReadLinesMessages(r, lines[1..], parse, q);
        }
      case Data(Some(v), done) =>
        var r1 := Absorb(r, Some(v));
        assert FirstText(lines, parse) == Some(ToJsString(v));
        assert r1.screen.messages == r.screen.messages + Partial(r, lines, parse);
        if !done {
          ReadLinesMessages(r1, lines[1..], parse, q);
          assert LastIsAssistant(r1.screen.bubbles);
          assert Partial(r1, lines[1..], parse) == [];
          assert r1.screen.messages + [] == r1.screen.messages;
        }
    }
  }

  /** The bubbles shown: the assistant bubble with the reply, replacing the
      last bubble when that was an assistant bubble, once any content came. */
  function Shown(bubbles: seq<Bubble>, first: Option<string>, reply: string): seq<Bubble> {
    if first.None? then bubbles
    else if LastIsAssistant(bubbles) then bubbles[..|bubbles| - 1] + [Said("assistant", reply)]
    else bubbles + [Said("assistant", reply)]
  }

  /** Replacing the last bubble twice is replacing it once. */
  lemma ShownTwice(bubbles: seq<Bubble>, t: string, reply: string)
    ensures Shown(Shown(bubbles, Some(t), t), Some(t), reply) == Shown(bubbles, Some(t), reply)
  {
    var b1 := Shown(bubbles, Some(t), t);
    assert LastIsAssistant(b1);
    if LastIsAssistant(bubbles) {
      assert b1[..|b1| - 1] == bubbles[..|bubbles| - 1];
    } else {
      assert b1[..|b1| - 1] == bubbles;
    }
  }

  /** The bubbles: one assistant bubble holding the whole reply, once any
      content came, in place of the last bubble when that was one. */
  lemma {:induction false} ReadLinesBubbles(r: Reading, lines: seq<string>, parse: Parser, q: Reading)
    requires !r.stopped && q == ReadLines(r, lines, parse)
    ensures q.screen.bubbles == Shown(r.screen.bubbles, FirstText(lines, parse), q.reply)
    decreases |lines|
  {
    if lines != [] {
      match ReadLine(lines[0], parse)
      case Ignored =>
        ReadLinesBubbles(r, lines[1..], parse, q);
      case Data(None, done) =>
        if !done {
          ReadLinesBubbles(r, lines[1..], parse, q);
        }
      case Data(Some(v), done) =>
        var t := r.reply + ToJsString(v);
        var r1 := Absorb(r, Some(v));
        assert FirstText(lines, parse) == Some(ToJsString(v));
        assert r1.screen.bubbles == Shown(r.screen.bubbles, Some(t), t);
        if done {
          assert q.reply == t;
        } else {
          ReadLinesBubbles(r1, lines[1..], parse, q);
          ReadLinesReply(r1, lines[1..], parse, q);
          if FirstText(lines[1..], parse).None? {
            NothingGathered(lines[1..], parse);
            assert r1.reply == t;
            assert q.reply == t + [] == t;
            assert q.screen.bubbles == r1.screen.bubbles;
          } else {
            ShownTwice(r.screen.bubbles, t, q.reply);
          }
        }
    }
  }

  // ---------------------------------------------------------------------
  // The stream, chunk by chunk
  // ---------------------------------------------------------------------

  /** The lines of all chunks, one chunk after the other. */
  function Flatten(all: seq<seq<string>>): seq<string> {
    if all == [] then [] else all[0] + Flatten(all[1..])
  }

  /** The end of the read loop: a failed read after an unfinished stream
      shows the error notice and ends loading. */
  function EndOfReading(q: Reading, broken: bool): Reading {
    if !q.stopped && broken then Fail(q) else q
  }

  /** Reading two runs of lines is reading the first, then the second
      unless a `done` record stopped the reading. */
  lemma {:induction false} ReadLinesAppend(r: Reading, a: seq<string>, b: seq<string>, parse: Parser)
    requires !r.stopped
    ensures ReadLines(r, a + b, parse)
      == if ReadLines(r, a, parse).stopped then ReadLines(r, a, parse) else ReadLines(ReadLines(r, a, parse), b, parse)
    decreases |a|
  {
    if a == [] {
      assert [] + b == b;
    } else {
      assert (a + b)[0] == a[0] && (a + b)[1..] == a[1..] + b;
      match ReadLine(a[0], parse)
      case Ignored =>
        ReadLinesAppend(r, a[1..], b, parse);
      case Data(c, done) =>
        if !done {
          ReadLinesAppend(Absorb(r, c), a[1..], b, parse);
        }
    }
  }

  /** Splitting the stream into chunks changes nothing but where a failed
      read can strike: the chunks read one by one are the lines of all of
      them read in one go. */
  lemma {:induction false} ReadChunksFlat(r: Reading, all: seq<seq<string>>, broken: bool, parse: Parser)
    requires !r.stopped
    ensures ReadChunks(r, all, broken, parse) == EndOfReading(ReadLines(r, Flatten(all), parse), broken)
    decreases |all|
  {
    if all != [] {
      ReadLinesAppend(r, all[0], Flatten(all[1..]), parse);
      var r1 := ReadLines(r, all[0], parse);
      if !r1.stopped {
        ReadChunksFlat(r1, all[1..], broken, parse);
      }
    }
  }

  // ---------------------------------------------------------------------
  // One exchange
  // ---------------------------------------------------------------------

  /** After the user's message is shown and the relay answers with a body:
      the reply is the truthy `content` texts up to the first `done`
      record; the history gains the user's message, the first partial
      reply (pushed by `updateAssistantMessage`) and, at `done`, the full
      reply; loading ends at `done` or at a failed read, and stays on when
      the body simply ends without `done`. */
  lemma ClientReply(before: Screen, content: string, chunks: seq<string>, broken: bool, parse: Parser,
                    lines: seq<string>, q: Screen)
    requires lines == Flatten(ChunkLines(chunks))
    requires q == Outcome(Sent(before, content), Body(chunks, broken), parse)
    ensures q.loading == (!Finished(lines, parse) && !broken)
    ensures q.messages == before.messages + [Message("user", content)]
      + (if FirstText(lines, parse).Some? then [Message("assistant", FirstText(lines, parse).value)] else [])
      + (if Finished(lines, parse) then [Message("assistant", Gathered(lines, parse))] else [])
    ensures q.bubbles == before.bubbles + [Said("user", content)]
      + (if FirstText(lines, parse).Some? then [Said("assistant", Gathered(lines, parse))] else [])
      + (if !Finished(lines, parse) && broken then [Notice(SendFailed)] else [])
  {
    var s := Sent(before, content);
    var r := Reading(s, "", false);
    assert !LastIsAssistant(s.bubbles) by {
      assert s.bubbles[|s.bubbles| - 1] == Said("user", content);
      assert "user" != "assistant";
    }
    ReadChunksFlat(r, ChunkLines(chunks), broken, parse);
    var m := ReadLines(r, lines, parse);
    ReadLinesReply(r, lines, parse, m);
    ReadLinesMessages(r, lines, parse, m);
    ReadLinesBubbles(r, lines, parse, m);
    assert m.reply == Gathered(lines, parse);
    assert q == EndOfReading(m, broken).screen;
    if FirstText(lines, parse).Some? {
      assert "" + FirstText(lines, parse).value == FirstText(lines, parse).value;
    }
  }

  /** When the relay refuses, the user's message stays, the error notice
      is shown and loading ends. */
  lemma ClientRefused(before: Screen, content: string, parse: Parser, q: Screen)
    requires q == Outcome(Sent(before, content), Refusal, parse)
    ensures !q.loading
    ensures q.messages == before.messages + [Message("user", content)]
    ensures q.bubbles == before.bubbles + [Said("user", content), Notice(SendFailed)]
  {
  }

  /** A finished stream holds exactly one final entry: with any content,
      the history gains the partial and the full reply, two assistant
      entries for one answer. */
  lemma FinishedTwice(before: Screen, content: string, chunks: seq<string>, broken: bool, parse: Parser,
                      lines: seq<string>, q: Screen)
    requires lines == Flatten(ChunkLines(chunks))
    requires q == Outcome(Sent(before, content), Body(chunks, broken), parse)
    requires Finished(lines, parse) && FirstText(lines, parse).Some?
    ensures !q.loading
    ensures |q.messages| == |before.messages| + 3
    ensures q.messages[|before.messages| + 1].role == "assistant" && q.messages[|before.messages| + 2].role == "assistant"
    ensures q.messages[|before.messages| + 2].content == Gathered(lines, parse)
  {
    ClientReply(before, content, chunks, broken, parse, lines, q);
  }

  // ---------------------------------------------------------------------
  // Text
  // ---------------------------------------------------------------------

  /** With files the message is the trimmed input, the marker, and every
      file's name in order, joined by `", "`. */
  lemma UserTextNames(message: string, files: seq<PickedFile>, k: nat)
    requires k < |files|
    ensures Occurs(UserText(message, files), message + AttachedMarker, 0)
    ensures Occurs(UserText(message, files), files[k].name,
                   |message + AttachedMarker| + JoinOffset(Names(files), ", ", k))
  {
    var a := message + AttachedMarker;
    var names := Names(files);
    assert UserText(message, files) == a + Join(names, ", ");
    PrefixThenPart(UserText(message, files), a, names, ", ", k, files[k].name);
  }

  /** A prefix followed by a join holds the prefix at 0 and each part at
      its offset after the prefix. */
  lemma PrefixThenPart(text: string, a: string, parts: seq<string>, sep: string, k: nat, p: string)
    requires text == a + Join(parts, sep)
    requires k < |parts| && p == parts[k]
    ensures Occurs(text, a, 0)
    ensures Occurs(text, p, |a| + JoinOffset(parts, sep, k))
  {
    var b := Join(parts, sep);
    PartInside(a, parts, sep, [], k);
    OccursBetween([], a, b, a, 0);
    assert a + b + [] == a + b && [] + a + b == a + b;
  }

  /** A word of small letters comes out as the same word in capitals. */
  lemma UpperOfLower(s: string, t: string)
    requires |s| == |t|
    requires forall i :: 0 <= i < |s| ==> 'a' <= s[i] <= 'z' && t[i] as int == s[i] as int - 32
    ensures Upper(s) == t
  {
    var u := Upper(s);
    forall i | 0 <= i < |s| ensures u[i] == t[i] {
      assert u[i] == (s[i] as int - 32) as char;
    }
  }

  /** The roles come out in capitals. */
  lemma UpperRoles()
    ensures Upper("user") == "USER"
    ensures Upper("assistant") == "ASSISTANT"
  {
    UpperOfLower("user", "USER");
    UpperOfLower("assistant", "ASSISTANT");
  }

  /** The transcript holds every message as `ROLE: content`, in order,
      each at its place in the list joined by the separator. */
  lemma TranscriptEntryAt(messages: seq<Message>, k: nat)
    requires k < |messages|
    ensures Occurs(Transcript(messages), Upper(messages[k].role) + ": " + messages[k].content,
                   JoinOffset(TranscriptEntries(messages), TranscriptSeparator, k))
  {
    JoinAt(TranscriptEntries(messages), TranscriptSeparator, k);
  }

  /** Consecutive entries are separated by the separator. */
  lemma TranscriptSeparated(messages: seq<Message>, k: nat)
    requires k + 1 < |messages|
    ensures Occurs(Transcript(messages), TranscriptSeparator,
                   JoinOffset(TranscriptEntries(messages), TranscriptSeparator, k) + |TranscriptEntry(messages[k])|)
  {
    var parts := TranscriptEntries(messages);
    var sep := TranscriptSeparator;
    assert parts[k] == TranscriptEntry(messages[k]);
    SeparatorAt(parts, sep, k);
  }
}

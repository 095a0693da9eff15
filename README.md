# Portable chatbot: a verified model of its core

This project models the sequential logic of an embeddable chat widget and
of the two relays it talks to. Each model comes with proofs of what that
code promises.

- **Markdown renderer** (`parseMarkdown`, module `Markdown`, properties in
  `MarkdownProperties`).
  - Fenced blocks are cut out leftmost and non-greedily (`Segments`) and
    replaced by `__CODE_BLOCK_i__` placeholders (`Protect`).
  - The text then goes through the sixteen global rewrites in the source's
    order (`Stages`, `ApplyStages`). Each rewrite is a rule scanned once
    over the text (`Scan`), not a general regular-expression engine.
  - The result is wrapped in one paragraph, and the blocks are put back.
    The source's restoring loop is `RestoreAsWritten`: it inserts each
    block with `String.replace`, which expands `$` patterns in the block.
    `ParseMarkdownAsWritten` is `parseMarkdown` with that loop.
    `ParseMarkdown` is `parseMarkdown` with the restore fixed to insert
    blocks verbatim (`RestoreFrom`; see Findings). Both agree when no
    block holds `$` (`MarkdownProperties.AsWrittenWithoutDollar`), so the
    properties of `ParseMarkdown` for text without fenced code carry over
    to the renderer as written.
- **Widget** (class `AIChatbot`, module `Widget`, properties in
  `WidgetProperties`).
  - The class `Widget.Chatbot` has the source's fields and updates them in
    place: attachments, theme, open state, drag and resize geometry,
    loading flag, message history, and the bubbles shown.
  - `sendMessage` is a method. Its read loop over the event stream is two
    nested loops: chunks, then the lines of each chunk. They are proved
    against the specification function `ReadChunks`.
- **Relay** (`POST /api/chat` in backend-example.js, module `Relay`,
  properties in `RelayProperties`).
  - Request intake and the stream flag, shared with the mock (module `Api`).
  - The multimodal rewrite of the last user message. Its loop is a method
    proved against `Parts`.
  - Validation and the mapping of upstream errors.
  - The translation of upstream event lines into the relay's own records,
    as two nested loop methods. They are proved against `TranslateLines`
    and `RelayLines`.
- **Mock relay** (test-backend.js, module `MockRelay`).
  - The same intake and validation as the relay.
  - The file-listing or canned response.
  - The word-by-word sender, as a loop, with its round trip: the words
    sent, put back together, are the response.

The supporting modules are:

- `Strings`: split, join, trim, `replace` of a first occurrence, and
  decimal digits.
- `Json`: JavaScript values, truthiness, property access, string
  conversion (`ConversionThrows` marks the values on which it throws a
  `TypeError`), and `JSON.stringify` with its string read-back.
- `Wire`: the `data: …\n\n` framing and the lines a reader splits it into.
- `Format`: base64 and `toFixed(2)` of a size in kilobytes, computed
  exactly with integers.

`JSON.parse` is a parameter (`Api.Parser`), `None` where it throws.

Where the source's behaviour is odd, the model keeps it as written:

- A numbered item is never wrapped in a list. The list wrap runs before
  numbered lines become items.
- A parsed object with its own `toString` key cannot be converted to a
  string, nor can an array holding one. In the widget, a record whose
  truthy `content` is such a value is swallowed by the `catch` before its
  `done` is read, so loading stays on. In the relay, a last user message
  with such a `content` and a file that is not an image makes the handler
  throw with no reply.
- A fence's language tag is refused only when its first line holds a space.
- `updateAssistantMessage` pushes the first partial reply into `messages`,
  and `finalizeAssistantMessage` pushes the full reply again.
  `WidgetProperties.FinishedTwice` states the resulting two assistant
  entries.
- A stream that ends without a `done` record leaves `isLoading` on.
- The text between the user's message and the file names is written with
  four characters (`Widget.AttachedMarker`): U+00F0, U+0178, U+201C and
  U+017D. They are the UTF-8 bytes of a paperclip emoji read again as
  Windows-1252, and that is what the source file holds.
- Only fenced code is escaped; plain text reaches the output unescaped.

## Model

| member | source | states |
|---|---|---|
| Markdown.ParseMarkdown | portable-chatbot.js:206-258 | `parseMarkdown` with each block put back verbatim; what it renders is stated by ParagraphWrapped, ParseWithoutCode, FencedBlockVerbatim, LoneBlock, HeadingLongestFirst, BulletWrapped and NumberedNotWrapped |
| Markdown.ParseMarkdownAsWritten | portable-chatbot.js:206-258 | `parseMarkdown` as written, whose restore reads `$` patterns in the blocks; stated by ParagraphWrappedAsWritten, FencedBlockAsWritten, LoneBlockAsWritten, AsWrittenWithoutDollar and DollarPairCollapses |
| Markdown.Segments | portable-chatbot.js:214 | the text cut at its fences by the lazy match; stated by SegmentsRoundTrip, SegmentsStep and CodeBodiesHaveNoFence |
| Markdown.Protect | portable-chatbot.js:214-226 | the text with each block replaced by its numbered placeholder; stated by ProtectAppend, OneTextSegment and OneBlockParts |
| Markdown.CodeBlockHtml | portable-chatbot.js:216-223 | the HTML of one block; stated by PlainBlock, EchoBlock and BlockWithoutDollar |
| Markdown.Scan | portable-chatbot.js:229-248 | one global `replace` from a position on; stated by ScanCopies, ScanSkip, ScanMatch and ScanUnchanged |
| Markdown.Stages | portable-chatbot.js:229-248 | the rewrites in the order the source chains them; used by ApplyStagesAppend, AvoidedStagesUnchanged, TameAvoidsStages and LateStagesAvoid |
| Markdown.EscapeHtml | portable-chatbot.js:207-211 | escaped text holds no `<` or `>`, and text without `&`, `<`, `>` or a no-break space is unchanged |
| Markdown.EscapeRoundTrip | portable-chatbot.js:207-211 | reading the escaped text back gives the original code: nothing is lost |
| Markdown.CodeBodiesHaveNoFence | portable-chatbot.js:214 | the lazy match: no block body contains a fence |
| Markdown.NoFenceBeforeClose | portable-chatbot.js:214 | a block ends at the first closing fence after its opening one |
| Markdown.SegmentsStep | portable-chatbot.js:214 | the first match is the text up to the first fence and the body up to the next |
| Markdown.SegmentsRoundTrip | portable-chatbot.js:214-226 | cutting the text at its fences loses nothing: putting the cut back gives the input |
| Markdown.BlockNumbering | portable-chatbot.js:215-225 | the block after k others is the k-th entry of `codeBlocks` and gets placeholder k |
| Markdown.RenderBlocks | portable-chatbot.js:221-224 | one piece of HTML per block, in order |
| Markdown.LanguageTag | portable-chatbot.js:216-220 | the tag is the whole first line of the trimmed body; it is dropped from the code when present, and otherwise the code is the whole body |
| Markdown.LanguageTagPresent | portable-chatbot.js:218 | a trimmed body has no tag exactly when it is empty or its first line holds a space |
| Markdown.DigitRun | portable-chatbot.js:238 | the run of leading digits that `^\d+` takes, and no more |
| Markdown.RewriteLine | portable-chatbot.js:230-241 | a whole-line rule applies only to a line that starts with its marker character |
| Markdown.LineEnd | portable-chatbot.js:230-241 | `$` in multiline mode: the next line terminator or the end of the text |
| Markdown.CloseOnLine | portable-chatbot.js:233-235 | the lazy emphasis body ends at the first closing marker on the same line |
| Markdown.ItemEnd | portable-chatbot.js:237 | one greedy `<li>.*</li>\n?` ends after the start and within the text |
| Markdown.RunEnd | portable-chatbot.js:237 | the `+` run of items ends within the text |
| Markdown.MatchAt | portable-chatbot.js:229-248 | a match at a position consumes at least one character and stays within the text |
| Markdown.ApplyStagesAppend | portable-chatbot.js:229-248 | the chained rewrites apply in order: the first stages, then the rest |
| Markdown.NoMatchWhereAvoided | portable-chatbot.js:229-248 | a rule finds no match in text that lacks what its pattern needs |
| Markdown.AvoidedStagesUnchanged | portable-chatbot.js:229-248 | stages whose patterns the text avoids leave it as it is |
| Markdown.TameAvoidsStages | portable-chatbot.js:229-248 | markup-free text avoids every stage |
| Markdown.LateStagesAvoid | portable-chatbot.js:239-248 | the stages from the quote rule on avoid one line of markup without quotes, code, links or rows |
| Markdown.RestoreWithoutDollar | portable-chatbot.js:253-255 | blocks without `$` come back the same through `String.replace` as inserted verbatim |
| Markdown.ParagraphWrapped | portable-chatbot.js:250 | the output starts with `<p>` and ends with `</p>` |
| Markdown.RestoreKeepsParagraph | portable-chatbot.js:250-255 | putting the blocks back leaves the outer paragraph tags in place |
| Markdown.ParagraphWrappedAsWritten | portable-chatbot.js:250-257 | the output of the renderer as written starts with `<p>` and ends with `</p>`, whatever `$` patterns its blocks hold |
| Markdown.RestoreAsWrittenKeepsParagraph | portable-chatbot.js:250-255 | the expanding restore loop keeps the opening `<p>` and the closing `</p>` |
| Strings.ExpandingKeepsEnds | portable-chatbot.js:253-255 | `String.replace` keeps a prefix without the pattern's first character and a suffix without its last, whatever the replacement expands to |
| MarkdownProperties.BlockWithoutDollar | portable-chatbot.js:216-224 | a block body without `$` is rendered without `$` |
| MarkdownProperties.AsWrittenWithoutDollar | portable-chatbot.js:214-257 | when no fenced block holds `$`, the renderer as written gives the same HTML as the verbatim restore |
| MarkdownProperties.AsWrittenWithoutBackquote | portable-chatbot.js:214-257 | text without a backquote renders the same through both restores |
| MarkdownProperties.SegmentsWithoutBackquote | portable-chatbot.js:214 | text without a backquote holds no fenced block |
| MarkdownProperties.ParseWithoutCode | portable-chatbot.js:206-258 | without a backquote the output is the formatted text in one paragraph |
| MarkdownProperties.NoCodeParts | portable-chatbot.js:214-226 | without a backquote there is no placeholder and no `codeBlocks` entry |
| MarkdownProperties.FormattedWithoutCode | portable-chatbot.js:229-250 | without a code block the output is `<p>`, the formatted text, `</p>` |
| MarkdownProperties.TameUnchanged | portable-chatbot.js:229-248 | no stage changes markup-free text |
| MarkdownProperties.PlainTextParagraph | portable-chatbot.js:229-250 | markup-free text is only wrapped in a paragraph |
| MarkdownProperties.PlainTextParagraphAsWritten | portable-chatbot.js:229-257 | in the renderer as written, markup-free text is only wrapped in a paragraph |
| MarkdownProperties.EmptyInput | portable-chatbot.js:250 | empty input yields exactly `<p></p>` |
| MarkdownProperties.EmptyInputAsWritten | portable-chatbot.js:250-257 | in the renderer as written, empty input yields exactly `<p></p>` |
| MarkdownProperties.WholeLine | portable-chatbot.js:230-241 | a whole-line rule rewrites a one-line text as the line rule says |
| MarkdownProperties.HeadingLine | portable-chatbot.js:230-232 | `n` hashes and a space make the rest of the line a level-n heading |
| MarkdownProperties.HeadingRewrite | portable-chatbot.js:230 | the level-3 rule turns `### x` into `<h3>x</h3>` |
| MarkdownProperties.HeadingTame | portable-chatbot.js:231-248 | a level-3 heading of plain text holds nothing a later stage rewrites |
| MarkdownProperties.HeadingStages | portable-chatbot.js:230-248 | the whole chain turns `### x` into `<h3>x</h3>` |
| MarkdownProperties.HeadingLongestFirst | portable-chatbot.js:230-232 | `### x` renders as a level-3 heading, never level 2 or 1 |
| MarkdownProperties.HeadingLongestFirstAsWritten | portable-chatbot.js:230-232 | in the renderer as written, `### x` renders as a level-3 heading |
| MarkdownProperties.LoneStarUnchanged | portable-chatbot.js:233-235 | an emphasis rule leaves a line with a single leading `*` alone |
| MarkdownProperties.BulletSurvivesEmphasis | portable-chatbot.js:230-235 | headings and emphasis leave a `* x` line alone |
| MarkdownProperties.SingleItemEnd | portable-chatbot.js:237 | one item takes up its whole line |
| MarkdownProperties.SingleItemRun | portable-chatbot.js:237 | a lone item is wrapped in one `<ul>` |
| MarkdownProperties.WrappedListAvoidsLateStages | portable-chatbot.js:238-248 | a wrapped list holds nothing a later stage rewrites |
| MarkdownProperties.BulletItem | portable-chatbot.js:236 | the bullet rule turns `* x` into `<li>x</li>` |
| MarkdownProperties.BulletStages | portable-chatbot.js:229-248 | the whole chain turns `* x` into `<ul><li>x</li></ul>` |
| MarkdownProperties.BulletWrapped | portable-chatbot.js:236-237 | a bulleted line renders as an item of an unordered list |
| MarkdownProperties.BulletWrappedAsWritten | portable-chatbot.js:236-237 | in the renderer as written, a bulleted line renders as an item of an unordered list |
| MarkdownProperties.NumberedItem | portable-chatbot.js:238 | the numbered rule turns `1. x` into `<li>x</li>` |
| MarkdownProperties.NumberedAvoidsEarlyStages | portable-chatbot.js:229-237 | no stage before the numbered rule touches a numbered line, the list wrap included |
| MarkdownProperties.ItemAvoidsLateStages | portable-chatbot.js:239-248 | an item of plain text holds nothing a later stage rewrites |
| MarkdownProperties.NumberedStages | portable-chatbot.js:229-248 | the whole chain turns `1. x` into `<li>x</li>` with no list around it |
| MarkdownProperties.NumberedNotWrapped | portable-chatbot.js:237-238 | a numbered line renders as an item that no list wraps, because the wrap runs first |
| MarkdownProperties.NumberedNotWrappedAsWritten | portable-chatbot.js:237-238 | in the renderer as written, a numbered line renders as an item that no list wraps |
| MarkdownProperties.ScanCopies | portable-chatbot.js:229-248 | a global replace copies the stretch before its first match |
| MarkdownProperties.BreaksRemoveLineFeeds | portable-chatbot.js:248 | after the `\n` to `<br>` rewrite no line feed is left |
| MarkdownProperties.FormattedHasNoLineFeed | portable-chatbot.js:247-248 | the formatted text never holds a line feed |
| MarkdownProperties.NoLineFeedWithoutCode | portable-chatbot.js:247-250 | without code blocks the output holds no line feed |
| MarkdownProperties.NoLineFeedWithoutCodeAsWritten | portable-chatbot.js:247-257 | in the renderer as written, text without code blocks yields no line feed |
| MarkdownProperties.ReplaceBetween | portable-chatbot.js:247-248 | a line-feed rule replaces its one occurrence between two lines |
| MarkdownProperties.ParagraphBreak | portable-chatbot.js:247-248 | a blank line becomes `</p><p>` |
| MarkdownProperties.LineBreak | portable-chatbot.js:247-248 | a single line feed becomes `<br>` |
| MarkdownProperties.SingleLineFeedKept | portable-chatbot.js:247 | the blank-line rule leaves a single line feed for the next rule |
| MarkdownProperties.OneBlockSegments | portable-chatbot.js:214 | text with one fenced block cuts into the text before it, the block and the text after it |
| MarkdownProperties.OneBlockParts | portable-chatbot.js:214-226 | one block gives placeholder 0 in the text and one `codeBlocks` entry |
| MarkdownProperties.PlaceholderIsTame | portable-chatbot.js:225-248 | a placeholder between plain lines survives every stage |
| MarkdownProperties.RestoreOne | portable-chatbot.js:253-255 | the block goes where its placeholder stands |
| MarkdownProperties.FencedBlockVerbatim | portable-chatbot.js:214-258 | a fenced block between plain lines comes out as its own HTML, untouched by the rewrites |
| MarkdownProperties.RestoreOneAsWritten | portable-chatbot.js:253-255 | as written, the block is inserted through `$`-pattern expansion |
| MarkdownProperties.FencedBlockAsWritten | portable-chatbot.js:253-255 | the as-written renderer on a fenced block between plain lines |
| MarkdownProperties.CodeMarkupHasNoDollar | portable-chatbot.js:221-223 | the block markup around the code holds no `$` |
| MarkdownProperties.EchoBlock | portable-chatbot.js:216-223 | the block `echo $$` has no language tag and is shown as it is |
| MarkdownProperties.DoubledDollar | portable-chatbot.js:254 | `$$` in a replacement string is inserted as one `$` |
| MarkdownProperties.LoneBlock | portable-chatbot.js:214-258 | text that is one fenced block renders as that block in a paragraph |
| MarkdownProperties.LoneBlockAsWritten | portable-chatbot.js:253-255 | as written, that block goes through `$` expansion |
| MarkdownProperties.EchoBlockExpanded | portable-chatbot.js:254 | the HTML of `echo $$` verbatim, and after expansion with `echo $` |
| MarkdownProperties.DollarPairCollapses | portable-chatbot.js:253-255 | the block `echo $$` renders with `$$`, but as written it renders with one `$` |
| Strings.TrimEmptyIffBlank | portable-chatbot.js:559-560 | the trimmed text is empty exactly when the text is all whitespace |
| Strings.SplitPiecesLackSeparator | test-backend.js:70 | no piece of a split holds the separator |
| Strings.JoinSplit | test-backend.js:70-76 | joining the pieces of a split with the separator gives the text back |
| Strings.NonBlank | backend-example.js:129 | the lines kept are exactly the non-blank ones, in order |
| Strings.JoinAt | portable-chatbot.js:500-502 | each part of a join sits at its offset |
| Strings.SeparatorAt | portable-chatbot.js:502 | the separator follows every part but the last |
| Strings.NatToStringValue | backend-example.js:56 | the decimal digits written for a number read back as that number |
| Json.ConversionThrows | backend-example.js:56 | when converting a value to a string throws; stated by NoteStep, NaNEntryThrows and ThrowingContentSkipped |
| Json.ToJsString | backend-example.js:56 | the string a value converts to; stated by TextWithNotes and NoteAppended |
| Json.Stringify | backend-example.js:144 | `JSON.stringify` of a value; stated by StringifyPrintable, ObjWritten and TwoFieldsWritten |
| Json.SetField | backend-example.js:61 | after the assignment the property holds the new value and every other property is unchanged |
| Json.LookupReplaced | backend-example.js:61 | assigning an existing property gives it the new value |
| Json.LookupUnaffected | backend-example.js:61 | assigning a property leaves every other one unchanged |
| Json.LookupAppend | backend-example.js:61 | a new property holds the assigned value and the others are unchanged |
| Json.EscapeJson | backend-example.js:144 | `JSON.stringify` writes no control character inside a string |
| Json.UnescapeEscape | backend-example.js:144 | reading the escaped characters back gives the string |
| Json.QuoteRoundTrip | backend-example.js:144 | `JSON.parse(JSON.stringify(s))` is `s` for a string |
| Json.QuoteOneLine | backend-example.js:144 | a string literal is written on one line |
| Json.StringifyPrintable | backend-example.js:144 | every value is written without a line break, so one record is one line |
| Json.TwoFieldsWritten | backend-example.js:144 | an object with two defined fields is written as both, in order |
| Wire.ChunkLines | backend-example.js:128-129 | each chunk is split into lines on its own, one line list per chunk |
| Wire.DataLines | backend-example.js:144 | one data line per record |
| Wire.ContentRecordWritten | backend-example.js:144 | the content record is what `JSON.stringify({content, done: false})` writes |
| Wire.ErrorRecordWritten | backend-example.js:154 | the error record is what `JSON.stringify({error: 'Stream processing failed', done: true})` writes |
| Wire.DataLineNotBlank | portable-chatbot.js:609 | a data line is never blank, so the reader keeps it |
| Wire.FrameThenRest | portable-chatbot.js:608-609 | a framed record is read back as its data line before what follows |
| Wire.FramesRead | portable-chatbot.js:608-609 | one-line records written one after another are read back as their data lines, in order |
| Wire.RecordPrintable | backend-example.js:123-154 | every record the relays write fits on one line |
| Wire.StreamRead | backend-example.js:123-154 | a whole stream read as one chunk gives one data line per record, whose payload is the record |
| Wire.PayloadOfFrame | portable-chatbot.js:612-614 | the payload of a data line is the record it was written for |
| Format.Base64 | backend-example.js:46 | base64 text has four characters per started group of three bytes |
| Format.Base64RoundTrip | backend-example.js:46 | decoding the base64 text gives the bytes back |
| Format.HundredthsNearest | backend-example.js:56 | `toFixed(2)` of size/1024 is the nearest hundredth, the larger one on a tie |
| Format.Kilobytes | backend-example.js:56 | `(size / 1024).toFixed(2)`; stated by KilobytesValue |
| Format.KilobytesValue | backend-example.js:56 | the text is digits, a dot and two digits, and it reads back as that hundredth |
| Api.Receive | backend-example.js:26-68 | the messages and stream flag read from the request; stated by StreamFlag, RefusedBeforeUpstream and ForwardedUnchanged |
| Api.StreamFlag | backend-example.js:26-68 | with files the stream flag is set exactly when the field is the string `'true'`; without files it is `body.stream` when defined and `true` otherwise |
| Relay.Handle | backend-example.js:24-183 | the `/api/chat` handler; stated by RefusedBeforeUpstream, ForwardedUnchanged and AnswerNotRefusal |
| Relay.Normalise | backend-example.js:34-62 | the file branch's rewrite of the last message; stated by NormaliseLast, NormaliseThrows, NaNEntryThrows and ObjectStillRefused |
| Relay.LastKey | backend-example.js:34 | the key that `messages.length - 1` reads on an object, `NaN` when it has no `length`; stated by NaNEntryRead |
| Relay.LastElement | backend-example.js:34 | `messages[messages.length - 1]`, absent exactly where the read throws; stated by ArrayLikeLast and NormaliseThrows |
| Relay.LineContent | backend-example.js:140-148 | the delta content of one payload; stated by DeltaLineWrites and UnparsableLineSkipped |
| Relay.TranslateLines | backend-example.js:131-150 | the records one chunk's lines write; stated by TranslateChunk, TranslateShape, DoneLineStops and OtherLineIgnored |
| Relay.RelayLines | backend-example.js:118-157 | the records the whole stream writes; stated by RelayStream, RelayShape and RelayedTextRead |
| Relay.Answer | backend-example.js:97-182 | the reply to an accepted request; stated by AnswerNotRefusal, UpstreamFailure, UpstreamMessagePassedOn and CompletionPassedOn |
| Relay.TextOfPart | backend-example.js:37-40 | the text part holds the original content as `text` |
| Relay.MultimodalContent | backend-example.js:37-58 | the file loop builds the text part followed by the image parts, with the notes appended to the text; it throws exactly when a note is appended to content that cannot be converted to a string |
| Relay.NoteStep | backend-example.js:55-56 | a note throws exactly when the original content cannot be converted: it is still the text until the first note, and a string afterwards |
| Relay.TranslateDone | backend-example.js:134-138 | a `[DONE]` line writes the done record alone and stops |
| Relay.TranslateStep | backend-example.js:131-150 | a line other than `[DONE]` adds its own records and goes on |
| Relay.TranslateChunk | backend-example.js:131-150 | the line loop writes what `TranslateLines` says and stops exactly at `[DONE]` |
| Relay.RelayStep | backend-example.js:120-151 | a chunk that stops ends the stream, otherwise the next chunk follows |
| Relay.RelayStream | backend-example.js:118-157 | the read loop writes what `RelayLines` says for the chunks' lines |
| RelayProperties.AnswerNotRefusal | backend-example.js:97-182 | an accepted request is never answered `INVALID_REQUEST` |
| RelayProperties.RefusedBeforeUpstream | backend-example.js:71-78 | a missing or non-array `messages` gets 400 `INVALID_REQUEST` whatever the upstream would say; an array never does |
| RelayProperties.ForwardedUnchanged | backend-example.js:66-95 | without files the messages go upstream exactly as received |
| RelayProperties.ImagesInOrder | backend-example.js:43-53 | part k+1 is the image part of the k-th image file, in file order |
| RelayProperties.PartCount | backend-example.js:37-58 | the content has 1 + the number of images parts, and part 0 is the text part |
| RelayProperties.TextOfImages | backend-example.js:37-58 | when every file is an image, the text part holds the original content unchanged |
| RelayProperties.TextWithNotes | backend-example.js:54-57 | otherwise the text part is the original content as text followed by each other file's note, in order |
| RelayProperties.ImageUrlCarriesBytes | backend-example.js:46-50 | the URL starts `data:<mime>;base64,` and what follows decodes to the file's bytes |
| RelayProperties.NormaliseLast | backend-example.js:34-62 | only the last message changes, only when its role is `user`, and only in `content` |
| RelayProperties.NormaliseThrows | backend-example.js:34-56 | normalisation throws exactly for `null` and `undefined` messages, and for a last user message whose content cannot be converted while some file is not an image, the last message being an array's final item or an object's entry at key `length - 1` (`NaN` when it has no `length`) |
| RelayProperties.NaNEntryRead | backend-example.js:34 | on an object whose only property is `NaN`, `messages[messages.length - 1]` reads that property |
| RelayProperties.NaNEntryThrows | backend-example.js:34-56 | with a non-image file, an object whose `NaN` entry is a user message with content that cannot be converted makes normalisation throw |
| RelayProperties.ArrayLikeLast | backend-example.js:34 | an object with entries `0`, `1` and `length` 2 has the same last element as the array of those two entries |
| RelayProperties.ObjectStillRefused | backend-example.js:34-78 | an object that normalises without throwing stays an object, changed at most at key `length - 1`, so it is still refused as not an array |
| RelayProperties.ErrorBodyFields | backend-example.js:72-77 | the error body carries the message and the code |
| RelayProperties.UpstreamFailure | backend-example.js:97-105 | an upstream failure is answered with its own status, `API_ERROR` and a message, unless reading its error throws |
| RelayProperties.UpstreamMessagePassedOn | backend-example.js:101 | the upstream's own error message is passed on |
| RelayProperties.CompletionPassedOn | backend-example.js:168-172 | without streaming the first choice's content comes back with `done: true` |
| RelayProperties.TranslateShape | backend-example.js:131-150 | a chunk writes content records only, then the done record when it stops |
| RelayProperties.RelayShape | backend-example.js:120-156 | the stream is content records and then exactly one terminal record, which is the error record only after a failed read |
| RelayProperties.DoneLineStops | backend-example.js:134-138 | the first `[DONE]` writes exactly one done record after the earlier lines' records and skips the rest |
| RelayProperties.OtherLineIgnored | backend-example.js:132 | a line that is not a data line writes nothing |
| RelayProperties.UnparsableLineSkipped | backend-example.js:140-148 | a payload that does not parse is skipped and processing goes on |
| RelayProperties.DeltaLineWrites | backend-example.js:141-145 | a data line writes one content record exactly when it carries truthy delta content |
| RelayProperties.RelayedTextRead | backend-example.js:123-154 | the relayed text, read as one chunk, gives one data line per record |
| MockRelay.MockResponse | test-backend.js:54-61 | the mock's answer; stated by FileEntryInResponse and CannedWithoutFiles |
| MockRelay.MockHandle | test-backend.js:24-99 | the mock `/api/chat` handler; stated by MockRefusal, MockStreamRead and MockWhole |
| MockRelay.Entries | test-backend.js:57 | one entry per file, in upload order |
| MockRelay.FileEntryInResponse | test-backend.js:56-58 | with files the response holds every file's entry at its place in the `", "`-joined list |
| MockRelay.EntryNamesFile | test-backend.js:57 | an entry begins with the file's original name |
| MockRelay.EntriesInOrder | test-backend.js:57 | each entry comes before the next |
| MockRelay.CannedWithoutFiles | test-backend.js:59-60 | without files the response is one of the canned answers |
| MockRelay.SendWords | test-backend.js:70-83 | the sender writes one record per word, the word followed by a space unless it is the last, then the done record |
| MockRelay.SaidWords | test-backend.js:70-76 | the words sent, concatenated, are the words joined by spaces |
| MockRelay.WordsRoundTrip | test-backend.js:70-83 | exactly one content record per word, the concatenated contents are the response, and exactly one done record comes last |
| MockRelay.MockRefusal | test-backend.js:45-52 | the mock answers 400 `INVALID_REQUEST` exactly when `messages` is missing or not an array |
| MockRelay.MockStreamRead | test-backend.js:63-83 | streamed, the reader sees one data line per record and the words put together are the response |
| MockRelay.MockWhole | test-backend.js:92-97 | not streamed, the reply is `{content: response, done: true}` with status 200 |
| Widget.ReadLine | portable-chatbot.js:612-626 | what one streamed line does in the client; stated by ReadDataLine and ThrowingContentSkipped |
| Widget.Step | portable-chatbot.js:612-626 | the reading state after one line; stated by ThrowingContentSkipped and StepThenRest |
| Widget.ReadChunks | portable-chatbot.js:600-634 | the reading state after the whole stream; stated by ReadChunksFlat and ClientReply |
| Widget.Outcome | portable-chatbot.js:569-634 | the widget's state after the relay answers; stated by ClientReply, ClientRefused and FinishedTwice |
| Widget.Transcript | portable-chatbot.js:499-502 | the downloaded transcript; stated by TranscriptEntryAt and TranscriptSeparated |
| Widget.Notices | portable-chatbot.js:466-467 | one "Maximum 5 files allowed" notice per refused file |
| Widget.Names | portable-chatbot.js:565 | the attached files' names, in order |
| Widget.Upper | portable-chatbot.js:501 | `toUpperCase` on ASCII: each small letter becomes its capital and everything else stays |
| Widget.TranscriptEntries | portable-chatbot.js:500-501 | one `ROLE: content` entry per message, in order |
| Widget.StepThenRest | portable-chatbot.js:611-623 | reading the lines is reading the first, then the rest unless a `done` record stopped it |
| Widget.Chatbot.constructor | portable-chatbot.js:262-273 | the initial state, with the theme defaulting to `light` |
| Widget.Chatbot.ShowError | portable-chatbot.js:681-689 | a notice is added and nothing else changes |
| Widget.Chatbot.HandleFiles | portable-chatbot.js:464-473 | files are attached in order while fewer than five are; every later file adds a notice instead; at most five stay attached |
| Widget.Chatbot.RemoveFile | portable-chatbot.js:485-486 | the attachments after `splice(index, 1)` |
| Widget.Chatbot.ToggleTheme | portable-chatbot.js:493-497 | the theme becomes `dark` when it was `light`, `light` otherwise |
| Widget.Chatbot.Open | portable-chatbot.js:517-521 | the window opens and nothing else changes |
| Widget.Chatbot.Close | portable-chatbot.js:523-526 | the window closes and nothing else changes |
| Widget.Chatbot.Toggle | portable-chatbot.js:513-515 | the open state flips |
| Widget.Chatbot.StartDrag | portable-chatbot.js:405-414 | a press on a header button does nothing; otherwise dragging starts with the mouse's offset |
| Widget.Chatbot.Drag | portable-chatbot.js:416-427 | while dragging, the position follows the mouse, clamped into the viewport |
| Widget.Chatbot.EndDrag | portable-chatbot.js:429-433 | dragging ends |
| Widget.Chatbot.StartResize | portable-chatbot.js:436-446 | resizing starts from the mouse and the current size |
| Widget.Chatbot.Resize | portable-chatbot.js:448-455 | while resizing, the size follows the mouse, never below 320 by 400 |
| Widget.Chatbot.EndResize | portable-chatbot.js:457-461 | resizing ends |
| Widget.Chatbot.AddMessageTo | portable-chatbot.js:637-657 | a history entry and its bubble are added |
| Widget.Chatbot.UpdateAssistantMessage | portable-chatbot.js:659-667 | the last assistant bubble shows the text, or a new message is added when the last bubble is not an assistant one |
| Widget.Chatbot.FinalizeAssistantMessage | portable-chatbot.js:669-671 | the reply is pushed to the history |
| Widget.Chatbot.SetLoading | portable-chatbot.js:673-679 | the loading flag is set |
| Widget.Chatbot.ReadOneLine | portable-chatbot.js:612-626 | one line does what `Step` says: truthy content extends and shows the reply, and a `done` record finalizes it and ends loading |
| Widget.Chatbot.ReadStream | portable-chatbot.js:600-634 | the read loop does what `ReadChunks` says for the chunks' lines |
| Widget.Chatbot.SendMessage | portable-chatbot.js:558-567 | a blank input without files, or a pending reply, changes nothing; otherwise the message is the trimmed input, followed by the marker and the file names when files are attached, and it is submitted |
| Widget.Chatbot.Submit | portable-chatbot.js:569-634 | the user's message is added, input and attachments are cleared, loading begins, and the state becomes what `Outcome` says for the relay's answer to the history and the attachments |
| WidgetProperties.FileCap | portable-chatbot.js:464-471 | from at most five, the attachments become min(5, count + arrivals), and each file past the cap gets one notice |
| WidgetProperties.SplicedRemovesOne | portable-chatbot.js:486 | removal takes out the one file at the index, keeps the others in order (a permutation minus one) and does nothing on an empty list |
| WidgetProperties.SpliceIndex | portable-chatbot.js:485-486 | the index removed: itself when in range, counted from the end when negative, none past the end |
| WidgetProperties.ThemeToggles | portable-chatbot.js:494 | the theme is always `light` or `dark`, always changes, and toggling twice restores it |
| WidgetProperties.ClampNearest | portable-chatbot.js:420-424 | the clamped coordinate lies in [0, max] and is the point of that range nearest the mouse; it is 0 when the window is larger than the viewport |
| WidgetProperties.NothingGathered | portable-chatbot.js:615-618 | without truthy content before `done` the reply is empty |
| WidgetProperties.ThrowingContentSkipped | portable-chatbot.js:613-626 | a record whose truthy `content` cannot be converted to a string changes nothing and does not end reading, whatever its `done` says |
| WidgetProperties.ReadLinesReply | portable-chatbot.js:611-623 | the reply is the in-order concatenation of truthy `content` up to the first `done`; reading stops and loading ends exactly at that record |
| WidgetProperties.ReadLinesMessages | portable-chatbot.js:617-620 | the history gains the first partial reply when the last bubble was not an assistant one, and the full reply at `done` |
| WidgetProperties.ReadLinesBubbles | portable-chatbot.js:659-667 | once content came, one assistant bubble shows the whole reply |
| WidgetProperties.ReadLinesAppend | portable-chatbot.js:604-629 | reading two runs of lines is reading the first, then the second unless `done` came |
| WidgetProperties.ReadChunksFlat | portable-chatbot.js:604-634 | reading chunk by chunk is reading all their lines in one go, then failing if the read broke before `done` |
| WidgetProperties.ClientReply | portable-chatbot.js:569-634 | after a send: the reply is the gathered content; the history gains the user's message, the partial reply and, at `done`, exactly one final reply; loading ends at `done` or a failed read and stays on when the stream ends without `done` |
| WidgetProperties.ClientRefused | portable-chatbot.js:598-634 | a refused request keeps the user's message, shows the error notice and ends loading |
| WidgetProperties.FinishedTwice | portable-chatbot.js:617-620 | a finished reply with content leaves two assistant entries, the partial then the full reply |
| WidgetProperties.UserTextNames | portable-chatbot.js:564-567 | with files the message is the trimmed input, the marker, and every file's name in order at its place in the `", "`-joined list |
| WidgetProperties.UpperOfLower | portable-chatbot.js:501 | a word of small letters comes out as the same word in capitals |
| WidgetProperties.UpperRoles | portable-chatbot.js:501 | the roles come out as `USER` and `ASSISTANT` |
| WidgetProperties.TranscriptEntryAt | portable-chatbot.js:500-502 | the transcript holds every message as `ROLE: content`, in order, each at its offset |
| WidgetProperties.TranscriptSeparated | portable-chatbot.js:502 | consecutive entries are separated by `\n\n---\n\n` |

## Left out

- DOM work is not modelled: styles, `createDOM`, event wiring, the file list's HTML and scrolling. A bubble holds its text, not the HTML that `parseMarkdown` makes of it; the renderer is modelled on its own.
- The error notice's removal after five seconds is not modelled: it is a timer.
- `saveState` and `loadState` (local storage) are not modelled, nor the Blob and link mechanics of `downloadChat`. Only the transcript text is modelled.
- `fetch`, Express, multer and CORS are not modelled. The relay's answer to the widget is the parameter `server`; the upstream service is the parameter `fetch`; the request body the widget builds is not modelled.
- `TextDecoder` is not modelled. Chunks are strings of already-decoded characters.
- `Math.random` is not modelled: the mock's canned answer is chosen by the parameter `pick`.
- Timers are not modelled: the mock's 100 ms delay between words, and the ineffective `clearTimeout(sendWord)` on disconnect. The sender is a plain loop.
- `reader.cancel` on client disconnect is not modelled, nor a second `sendMessage` or `handleFiles` while a reply streams: concurrency.
- The upstream request body and configuration are not modelled, nor the `/health` endpoints: bootstrap only.
- Widget.Upper: only ASCII letters are capitalised. Roles are the ASCII words `user` and `assistant`, and full Unicode case mapping is not modelled.
- Json.Value: numbers are integers; fractional JSON numbers, and the rounding of integers beyond 2^53, are not modelled.
- Json.ToJsString: an integer is written with all its digits; the exponent form that `String` uses from 1e21 on (`1e+21`) is not modelled.
- Relay.LastKey: a `length` that is a string, an array or an object is read as giving no last element, because its conversion to a number is not modelled.
- Floating point is not modelled: `toFixed(2)` of `size / 1024` is computed exactly with integers, and a value whose binary rounding would differ is not modelled.

## Findings

| source | as written | input that shows it | evidently intended | confidence | as-written member | corrected member |
|---|---|---|---|---|---|---|
| portable-chatbot.js:253-255 | each block goes back through `parsed.replace(placeholder, block)`, which reads `$$`, `$&`, `` $` `` and `$'` in the block as replacement patterns | a fenced block holding `echo $$` renders as `echo $` | code blocks shown exactly as written (a replacer function instead of a string) | not executed | Markdown.ParseMarkdownAsWritten, MarkdownProperties.DollarPairCollapses | Markdown.ParseMarkdown, MarkdownProperties.FencedBlockVerbatim |

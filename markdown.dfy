/** The widget's markdown renderer, `parseMarkdown`. Fenced code blocks are
    set aside behind numbered placeholders first, an ordered chain of regular
    expression rewrites then formats the remaining text, the result is wrapped
    in one paragraph, and the code blocks are put back.

    Each regular expression is modelled by the match it makes at one position
    (`MatchAt`); a single scan (`Scan`) applies a rule globally, trying every
    position from left to right and resuming after each match, as
    `String.prototype.replace` does with the `g` flag. */
module Markdown {
  import opened Strings
  import opened Wrappers

  // ---------------------------------------------------------------------
  // escapeHtml: the text of a detached element read back through innerHTML
  // ---------------------------------------------------------------------

  /** How the HTML serialiser writes one character of a text node. */
  function EscapeChar(c: char): string {
    if c == '&' then "&amp;"
    else if c == '\U{A0}' then "&nbsp;"
    else if c == '<' then "&lt;"
    else if c == '>' then "&gt;"
    else [c]
  }

  function EscapeHtml(s: string): (r: string)
    ensures '<' !in r && '>' !in r
    ensures (forall i :: 0 <= i < |s| ==> s[i] != '&' && s[i] != '\U{A0}' && s[i] != '<' && s[i] != '>') ==> r == s
  {
    if s == [] then [] else EscapeChar(s[0]) + EscapeHtml(s[1..])
  }

  /** Reading escaped text back: the four entities the serialiser writes. */
  function UnescapeHtml(s: string): string
    decreases |s|
  {
    if s == [] then []
    else if s[0] != '&' then [s[0]] + UnescapeHtml(s[1..])
    else if StartsWith(s, "&amp;") then "&" + UnescapeHtml(s[5..])
    else if StartsWith(s, "&nbsp;") then "\U{A0}" + UnescapeHtml(s[6..])
    else if StartsWith(s, "&lt;") then "<" + UnescapeHtml(s[4..])
    else if StartsWith(s, "&gt;") then ">" + UnescapeHtml(s[4..])
    else "&" + UnescapeHtml(s[1..])
  }

  /** Reading back one escaped character. */
  lemma UnescapeStep(c: char, rest: string)
    ensures UnescapeHtml(EscapeChar(c) + rest) == [c] + UnescapeHtml(rest)
  {
    var e := EscapeChar(c);
    var t := e + rest;
    assert t[|e|..] == rest;
    assert t[0] == e[0];
    if c == '&' {
      assert t[..5] == "&amp;";
    } else if c == '\U{A0}' {
      assert t[..6] == "&nbsp;";
      assert !StartsWith(t, "&amp;") by { assert t[1] == 'n'; }
    } else if c == '<' {
      assert t[..4] == "&lt;";
      assert !StartsWith(t, "&amp;") && !StartsWith(t, "&nbsp;") by { assert t[1] == 'l'; }
    } else if c == '>' {
      assert t[..4] == "&gt;";
      assert !StartsWith(t, "&amp;") && !StartsWith(t, "&nbsp;") && !StartsWith(t, "&lt;") by { assert t[1] == 'g'; }
    }
  }

  /** Escaping loses nothing: the code shown is the code written. */
  lemma {:induction false} EscapeRoundTrip(s: string)
    ensures UnescapeHtml(EscapeHtml(s)) == s
  {
    if s != [] {
      EscapeRoundTrip(s[1..]);
      UnescapeStep(s[0], EscapeHtml(s[1..]));
    }
  }

  // ---------------------------------------------------------------------
  // Fenced code blocks: /```([\s\S]*?)```/g, leftmost and non-greedy
  // ---------------------------------------------------------------------

  const Fence: string := "```"

  predicate NoFence(s: string) {
    forall k :: 0 <= k <= |s| ==> !Occurs(s, Fence, k)
  }

  /** The input cut at its fences: text outside fences, and the body of each
      fenced block, in order. */
  datatype Segment = Text(text: string) | Code(body: string)

  /** The fences the global regular expression finds: the first ``` opens a
      block and the next ``` after it closes the block; an opening fence
      with no closing one stays in the text. */
  function Segments(s: string): seq<Segment>
    decreases |s|
  {
    var open := IndexOf(s, Fence, 0);
    if open < 0 then [Text(s)]
    else
      var close := IndexOf(s, Fence, open + 3);
      if close < 0 then [Text(s)]
      else [Text(s[..open]), Code(s[open + 3..close])] + Segments(s[close + 3..])
  }

  /** The source text the segments were cut from. */
  function Unsegment(segs: seq<Segment>): string {
    if segs == [] then []
    else
      (match segs[0]
       case Text(t) => t
       case Code(b) => Fence + b + Fence)
      + Unsegment(segs[1..])
  }

  /** The match is lazy: no block body holds a fence. */
  lemma {:induction false} CodeBodiesHaveNoFence(s: string)
    ensures forall g | g in Segments(s) && g.Code? :: NoFence(g.body)
    decreases |s|
  {
    var open := IndexOf(s, Fence, 0);
    if open >= 0 {
      var close := IndexOf(s, Fence, open + 3);
      if close >= 0 {
        var rest := s[close + 3..];
        SegmentsStep(s, open, close);
        NoFenceBeforeClose(s, open, close);
        CodeBodiesHaveNoFence(rest);
      }
    }
  }

  /** The body of a block stops at the first closing fence. */
  lemma NoFenceBeforeClose(s: string, open: nat, close: int)
    requires close == IndexOf(s, Fence, open + 3) && close >= 0
    ensures NoFence(s[open + 3..close])
  {
    var body := s[open + 3..close];
    forall k: nat ensures !Occurs(body, Fence, k) {
      if k + 3 <= |body| {
        assert body[k..k + 3] == s[open + 3 + k..open + 3 + k + 3];
        assert !Occurs(s, Fence, open + 3 + k);
      }
    }
  }

  /** One step of the fence search: the text before the first fence and the
      first block come first. */
  lemma SegmentsStep(s: string, open: int, close: int)
    requires open == IndexOf(s, Fence, 0) && open >= 0
    requires close == IndexOf(s, Fence, open + 3) && close >= 0
    ensures Segments(s) == [Text(s[..open]), Code(s[open + 3..close])] + Segments(s[close + 3..])
  {
  }

  lemma UnsegmentStep(t: string, body: string, rest: seq<Segment>)
    ensures Unsegment([Text(t), Code(body)] + rest) == t + (Fence + body + Fence) + Unsegment(rest)
  {
    var segs := [Text(t), Code(body)] + rest;
    assert segs[1..] == [Code(body)] + rest;
    assert segs[1..][1..] == rest;
  }

  /** A string cut around two fences. */
  lemma FenceCut(s: string, open: nat, close: nat)
    requires open + 3 <= close && close + 3 <= |s|
    requires Occurs(s, Fence, open) && Occurs(s, Fence, close)
    ensures s == s[..open] + (Fence + s[open + 3..close] + Fence) + s[close + 3..]
  {
    assert s == s[..open] + s[open..open + 3] + s[open + 3..close] + s[close..close + 3] + s[close + 3..];
  }

  /** Cutting the text at its fences loses nothing. */
  lemma {:induction false} SegmentsRoundTrip(s: string)
    ensures Unsegment(Segments(s)) == s
    decreases |s|
  {
    var open := IndexOf(s, Fence, 0);
    if open >= 0 {
      var close := IndexOf(s, Fence, open + 3);
      if close >= 0 {
        var rest := s[close + 3..];
        SegmentsRoundTrip(rest);
        SegmentsStep(s, open, close);
        UnsegmentStep(s[..open], s[open + 3..close], Segments(rest));
        FenceCut(s, open, close);
      }
    }
  }

  /** `__CODE_BLOCK_i__`. */
  function Placeholder(i: nat): string {
    "__CODE_BLOCK_" + NatToString(i) + "__"
  }

  /** The text with the i-th fenced block replaced by the placeholder for
      `next + i`. */
  function Protect(segs: seq<Segment>, next: nat): string {
    if segs == [] then []
    else
      match segs[0]
      case Text(t) => t + Protect(segs[1..], next)
      case Code(_) => Placeholder(next) + Protect(segs[1..], next + 1)
  }

  /** The body of each fenced block, in the order of the blocks. */
  function CodeBodies(segs: seq<Segment>): seq<string> {
    if segs == [] then []
    else
      match segs[0]
      case Text(_) => CodeBodies(segs[1..])
      case Code(b) => [b] + CodeBodies(segs[1..])
  }

  lemma {:induction false} ProtectAppend(a: seq<Segment>, b: seq<Segment>, next: nat)
    ensures Protect(a + b, next) == Protect(a, next) + Protect(b, next + |CodeBodies(a)|)
  {
    if a == [] {
      assert a + b == b;
    } else {
      assert (a + b)[0] == a[0];
      assert (a + b)[1..] == a[1..] + b;
      if a[0].Code? {
        ProtectAppend(a[1..], b, next + 1);
      } else {
        ProtectAppend(a[1..], b, next);
      }
    }
  }

  lemma {:induction false} CodeBodiesAppend(a: seq<Segment>, b: seq<Segment>)
    ensures CodeBodies(a + b) == CodeBodies(a) + CodeBodies(b)
  {
    if a == [] {
      assert a + b == b;
    } else {
      assert (a + b)[0] == a[0];
      assert (a + b)[1..] == a[1..] + b;
      CodeBodiesAppend(a[1..], b);
    }
  }

  /** A fenced block that comes after k others gets placeholder k and is
      the k-th entry of the code-block list. */
  lemma BlockNumbering(pre: seq<Segment>, body: string, post: seq<Segment>, next: nat)
    ensures var k := |CodeBodies(pre)|;
      && Protect(pre + [Code(body)] + post, next)
         == Protect(pre, next) + Placeholder(next + k) + Protect(post, next + k + 1)
      && CodeBodies(pre + [Code(body)] + post) == CodeBodies(pre) + [body] + CodeBodies(post)
  {
    var tail := [Code(body)] + post;
    assert pre + [Code(body)] + post == pre + tail;
    assert tail[1..] == post;
    ProtectAppend(pre, tail, next);
    CodeBodiesAppend(pre, tail);
  }

  /** The language tag of a trimmed block body: its first line when that
      is not empty and holds no space character. */
  function FenceLanguage(trimmed: string): string {
    var lines := Split(trimmed, '\n');
    if lines[0] != [] && ' ' !in lines[0] then lines[0] else []
  }

  /** The code shown: the trimmed body without its language line. */
  function FenceContent(trimmed: string): string {
    if FenceLanguage(trimmed) != [] then Join(Split(trimmed, '\n')[1..], "\n") else trimmed
  }

  /** The copy button appended to every block (written in pieces only to
      keep it readable). */
  const CopyButton: string :=
    "<button class=\"" + "ai-chatbot-copy-btn\" " + "onclick=\"navigator." + "clipboard."
    + "writeText(this." + "previousElement" + "Sibling." + "textContent)\">" + "Copy</button>"

  /** The markup opening a block whose language tag is `language`. */
  function CodeOpen(language: string): string {
    "<pre><code class=\"language-" + language + "\">"
  }

  /** The markup closing a block, with its copy button. */
  const CodeClose: string := "</code>" + CopyButton + "</pre>"

  /** The HTML kept aside for one fenced block. */
  function CodeBlockHtml(code: string): string {
    var trimmed := Trim(code);
    CodeOpen(FenceLanguage(trimmed)) + EscapeHtml(FenceContent(trimmed)) + CodeClose
  }

  /** The HTML of each block, in order: the `codeBlocks` array. */
  function RenderBlocks(bodies: seq<string>): (html: seq<string>)
    ensures |html| == |bodies|
  {
    seq(|bodies|, i requires 0 <= i < |bodies| => CodeBlockHtml(bodies[i]))
  }

  /** The first line of a text and what follows its first line break. */
  lemma FirstLine(t: string, i: nat, lines: seq<string>)
    requires i == FirstIndex(t, '\n') && lines == Split(t, '\n')
    ensures i <= |t| && lines[0] == t[..i]
    ensures |lines| > 1 <==> i < |t|
    ensures i < |t| ==> Join(lines[1..], "\n") == t[i + 1..]
  {
    if i < |t| {
      var rest := Split(t[i + 1..], '\n');
      assert lines == [t[..i]] + rest;
      assert lines[1..] == rest;
      JoinSplit(t[i + 1..], '\n');
    } else {
      assert lines == [t];
      assert t[..i] == t;
    }
  }

  /** The language tag is the whole first line of the trimmed body and is
      dropped from the code; without a tag the code is the whole trimmed
      body. */
  lemma LanguageTag(t: string, lang: string, code: string)
    requires lang == FenceLanguage(t) && code == FenceContent(t)
    ensures ' ' !in lang && '\n' !in lang
    ensures lang != [] ==> (t == lang && code == []) || t == lang + "\n" + code
    ensures lang == [] ==> code == t
  {
    var i := FirstIndex(t, '\n');
    var lines := Split(t, '\n');
    FirstLine(t, i, lines);
    var first := t[..i];
    assert lines[0] == first;
    assert '\n' !in first;
    if lang != [] {
      assert lang == first;
      if i < |t| {
        assert code == t[i + 1..];
        assert t == first + "\n" + t[i + 1..];
      } else {
        assert lines[1..] == [];
        assert code == Join([], "\n") == [];
        assert t == first;
      }
    }
  }

  /** A trimmed body has a language tag exactly when it is not empty and has
      no space before its first line break. */
  lemma LanguageTagPresent(t: string)
    requires t == [] || !IsWhitespace(t[0])
    ensures FenceLanguage(t) == [] <==> t == [] || exists k :: 0 <= k < FirstIndex(t, '\n') && t[k] == ' '
  {
    var i := FirstIndex(t, '\n');
    var lines := Split(t, '\n');
    FirstLine(t, i, lines);
    var first := t[..i];
    if first == [] && t != [] {
      assert false;
    }
    if ' ' in first {
      var k :| 0 <= k < |first| && first[k] == ' ';
      assert t[k] == ' ';
    }
  }

  // ---------------------------------------------------------------------
  // The formatting rules and the global scan
  // ---------------------------------------------------------------------

  /** The whole-line rules written /^...$/gm. */
  datatype LineKind = Heading(level: nat) | Bullet | Numbered | Quote

  datatype Rule =
    | Line(kind: LineKind)
      // /\*\*\*(.*?)\*\*\*/g and the like: a marker, a lazy body on one line, the marker
    | Emphasis(marker: string, open: string, close: string)
      // /`([^`]+)`/g
    | InlineCode
      // /\[([^\]]+)\]\(([^)]+)\)/g
    | Link
      // /\|(.+)\|/g, with each cell of the row trimmed
    | TableRow
      // /(<item>.*<\/item>\n?)+/g, wrapped in a container element
    | Run(item: string, container: string)
      // a literal pattern, such as /\n\n/g
    | Literal(pattern: string, replacement: string)

  datatype Match = Match(end: nat, out: string)

  function Hashes(n: nat): (r: string)
    ensures |r| == n && forall i :: 0 <= i < n ==> r[i] == '#'
  {
    if n == 0 then [] else "#" + Hashes(n - 1)
  }

  /** The number of leading ASCII digits, what `^\d+` matches. */
  function DigitRun(line: string): (k: nat)
    ensures k <= |line|
    ensures forall i :: 0 <= i < k ==> IsDigit(line[i])
    ensures k < |line| ==> !IsDigit(line[k])
  {
    if line == [] || !IsDigit(line[0]) then 0 else 1 + DigitRun(line[1..])
  }

  /** The character a line must start with for the rule to apply to it. */
  predicate Leads(kind: LineKind, c: char) {
    match kind
    case Heading(n) => if n == 0 then c == ' ' else c == '#'
    case Bullet => c == '*'
    case Numbered => IsDigit(c)
    case Quote => c == '>'
  }

  /** What a whole-line rule makes of one line, if it applies. */
  function RewriteLine(kind: LineKind, line: string): (r: Option<string>)
    ensures r.Some? ==> |line| >= 1 && Leads(kind, line[0])
  {
    match kind
    case Heading(n) =>
      var marker := Hashes(n) + " ";
      var tag := "h" + NatToString(n);
      if StartsWith(line, marker) then Some("<" + tag + ">" + line[|marker|..] + "</" + tag + ">") else None
    case Bullet =>
      if StartsWith(line, "* ") && |line| > 2 then Some("<li>" + line[2..] + "</li>") else None
    case Numbered =>
      var k := DigitRun(line);
      if k > 0 && StartsWith(line[k..], ". ") && |line| > k + 2 then Some("<li>" + line[k + 2..] + "</li>") else None
    case Quote =>
      if StartsWith(line, "> ") && |line| > 2 then Some("<blockquote>" + line[2..] + "</blockquote>") else None
  }

  /** Where the line that `p` is on ends: the next line terminator or the end. */
  function LineEnd(s: string, p: nat): (e: nat)
    requires p <= |s|
    ensures p <= e <= |s|
    ensures e < |s| ==> IsLineTerminator(s[e])
    ensures forall i :: p <= i < e ==> !IsLineTerminator(s[i])
    decreases |s| - p
  {
    if p == |s| || IsLineTerminator(s[p]) then p else LineEnd(s, p + 1)
  }

  /** The first occurrence of `marker` at or after `from` that is on the same
      line as `from`, or -1: where a lazy `(.*?)` followed by the marker stops. */
  function CloseOnLine(s: string, from: nat, marker: string): (q: int)
    requires |marker| > 0
    ensures q == -1 || (from <= q && Occurs(s, marker, q))
    ensures q != -1 ==> forall i :: from <= i < q ==> !IsLineTerminator(s[i]) && !Occurs(s, marker, i)
    decreases |s| - from
  {
    if from + |marker| > |s| then -1
    else if Occurs(s, marker, from) then from
    else if IsLineTerminator(s[from]) then -1
    else CloseOnLine(s, from + 1, marker)
  }

  /** Where one `<item>.*</item>\n?` starting at `p` ends, or -1: the greedy
      `.*` reaches the last closing tag on the line. */
  function ItemEnd(s: string, p: nat, item: string): (e: int)
    requires p <= |s|
    ensures e == -1 || p < e <= |s|
  {
    var open := "<" + item + ">";
    var close := "</" + item + ">";
    if !StartsWith(s[p..], open) then -1
    else
      var q := LastOccurrence(s, close, p + |open|, LineEnd(s, p + |open|));
      if q < 0 then -1
      else if q + |close| < |s| && s[q + |close|] == '\n' then q + |close| + 1
      else q + |close|
  }

  /** Where the run of items starting at `p` ends: the `+` takes as many
      items as follow one another. */
  function RunEnd(s: string, p: nat, item: string): (e: nat)
    requires p <= |s|
    ensures p <= e <= |s|
    decreases |s| - p
  {
    var next := ItemEnd(s, p, item);
    if next < 0 then p else RunEnd(s, next, item)
  }

  /** `content.split('|').map(cell => `<td>${cell.trim()}</td>`).join('')`. */
  function Cells(cells: seq<string>): string {
    if cells == [] then [] else "<td>" + Trim(cells[0]) + "</td>" + Cells(cells[1..])
  }

  /** The match a rule makes at position `p`, if any: where it ends and what
      replaces it. */
  function MatchAt(r: Rule, s: string, p: nat): (m: Option<Match>)
    requires p < |s|
    ensures m.Some? ==> p < m.value.end <= |s|
  {
    match r
    case Line(kind) =>
      if p > 0 && !IsLineTerminator(s[p - 1]) then None
      else
        var e := LineEnd(s, p);
        var line := RewriteLine(kind, s[p..e]);
        if line.Some? then Some(Match(e, line.value)) else None
    case Emphasis(marker, open, close) =>
      if |marker| == 0 || !StartsWith(s[p..], marker) then None
      else
        var q := CloseOnLine(s, p + |marker|, marker);
        if q < 0 then None else Some(Match(q + |marker|, open + s[p + |marker|..q] + close))
    case InlineCode =>
      if s[p] != '`' then None
      else
        var q := IndexOf(s, "`", p + 1);
        if q <= p + 1 then None else Some(Match(q + 1, "<code>" + s[p + 1..q] + "</code>"))
    case Link =>
      if s[p] != '[' then None
      else
        var q := IndexOf(s, "]", p + 1);
        if q <= p + 1 || q + 1 >= |s| || s[q + 1] != '(' then None
        else
          var u := IndexOf(s, ")", q + 2);
          if u <= q + 2 then None
          else Some(Match(u + 1, "<a href=\"" + s[q + 2..u] + "\" target=\"_blank\">" + s[p + 1..q] + "</a>"))
    case TableRow =>
      if s[p] != '|' then None
      else
        var q := LastOccurrence(s, "|", p + 2, LineEnd(s, p + 1));
        if q < 0 then None else Some(Match(q + 1, "<tr>" + Cells(Split(s[p + 1..q], '|')) + "</tr>"))
    case Run(item, container) =>
      var e := ItemEnd(s, p, item);
      if e < 0 then None
      else
        var end := RunEnd(s, e, item);
        Some(Match(end, "<" + container + ">" + s[p..end] + "</" + container + ">"))
    case Literal(pattern, replacement) =>
      if |pattern| > 0 && StartsWith(s[p..], pattern) then Some(Match(p + |pattern|, replacement)) else None
  }

  /** The global replace from position `p` on. */
  function Scan(r: Rule, s: string, p: nat): string
    requires p <= |s|
    decreases |s| - p
  {
    if p == |s| then []
    else
      match MatchAt(r, s, p)
      case Some(m) => m.out + Scan(r, s, m.end)
      case None => [s[p]] + Scan(r, s, p + 1)
  }

  /** `s.replace(rule, ...)` with the `g` flag. */
  function Rewrite(r: Rule, s: string): string {
    Scan(r, s, 0)
  }

  /** The rewrites of `parseMarkdown`, in the order it applies them. */
  const Stages: seq<Rule> := [
    Line(Heading(3)), Line(Heading(2)), Line(Heading(1)),
    Emphasis("***", "<strong><em>", "</em></strong>"),
    Emphasis("**", "<strong>", "</strong>"),
    Emphasis("*", "<em>", "</em>"),
    Line(Bullet), Run("li", "ul"), Line(Numbered),
    Line(Quote), InlineCode, Link,
    TableRow, Run("tr", "table"),
    Literal("\n\n", "</p><p>"), Literal("\n", "<br>")
  ]

  function ApplyStages(rules: seq<Rule>, s: string): string {
    if rules == [] then s else ApplyStages(rules[1..], Rewrite(rules[0], s))
  }

  /** Applying the stages of `a` and then those of `b`. */
  lemma {:induction false} ApplyStagesAppend(a: seq<Rule>, b: seq<Rule>, s: string)
    ensures ApplyStages(a + b, s) == ApplyStages(b, ApplyStages(a, s))
  {
    if a == [] {
      assert a + b == b;
    } else {
      assert (a + b)[0] == a[0];
      assert (a + b)[1..] == a[1..] + b;
      ApplyStagesAppend(a[1..], b, Rewrite(a[0], s));
    }
  }

  predicate NoTerminator(s: string) {
    forall i :: 0 <= i < |s| ==> !IsLineTerminator(s[i])
  }

  /** `s` holds nothing a rule needs to start a match. */
  predicate Avoids(r: Rule, s: string) {
    match r
    case Line(kind) => NoTerminator(s) && (s == [] || !Leads(kind, s[0]))
    case Emphasis(marker, _, _) => marker != [] && forall i :: 0 <= i < |s| ==> s[i] != marker[0]
    case InlineCode => forall i :: 0 <= i < |s| ==> s[i] != '`'
    case Link => forall i :: 0 <= i < |s| ==> s[i] != '['
    case TableRow => forall i :: 0 <= i < |s| ==> s[i] != '|'
    case Run(item, _) => item != [] && forall i :: 0 <= i < |s| - 1 ==> !(s[i] == '<' && s[i + 1] == item[0])
    case Literal(pattern, _) => pattern != [] && forall i :: 0 <= i < |s| ==> s[i] != pattern[0]
  }

  lemma NoMatchWhereAvoided(r: Rule, s: string, p: nat)
    requires p < |s| && Avoids(r, s)
    ensures MatchAt(r, s, p).None?
  {
    match r
    case Line(kind) =>
      if p == 0 {
        var e := LineEnd(s, 0);
        assert e == |s|;
        assert s[0..e] == s;
      }
    case Emphasis(marker, _, _) =>
      NotStartsWith(s[p..], marker);
    case InlineCode =>
    case Link =>
    case TableRow =>
    case Run(item, _) =>
      var open := "<" + item + ">";
      assert open[0] == '<' && open[1] == item[0];
      NotStartsWith(s[p..], open);
    case Literal(pattern, _) =>
      NotStartsWith(s[p..], pattern);
  }

  /** A text does not start with a longer prefix, nor with one whose first
      or second character differs from its own. */
  lemma NotStartsWith(t: string, prefix: string)
    requires || |prefix| > |t|
             || (|prefix| >= 1 && t != [] && t[0] != prefix[0])
             || (|prefix| >= 2 && |t| >= 2 && t[1] != prefix[1])
    ensures !StartsWith(t, prefix)
  {
    if |prefix| <= |t| {
      assert t[..|prefix|][0] == t[0];
      if |prefix| >= 2 {
        assert t[..|prefix|][1] == t[1];
      }
    }
  }

  /** A scan that finds no match copies the text. */
  lemma {:induction false} ScanUnchanged(r: Rule, s: string, p: nat)
    requires p <= |s|
    requires forall q :: p <= q < |s| ==> MatchAt(r, s, q).None?
    ensures Scan(r, s, p) == s[p..]
    decreases |s| - p
  {
    if p < |s| {
      ScanUnchanged(r, s, p + 1);
      assert s[p..] == [s[p]] + s[p + 1..];
    }
  }

  /** A rule leaves alone a text that avoids it. */
  lemma AvoidedRuleUnchanged(r: Rule, s: string)
    requires Avoids(r, s)
    ensures Rewrite(r, s) == s
  {
    forall q | 0 <= q < |s| ensures MatchAt(r, s, q).None? {
      NoMatchWhereAvoided(r, s, q);
    }
    ScanUnchanged(r, s, 0);
  }

  lemma {:induction false} AvoidedStagesUnchanged(rules: seq<Rule>, s: string)
    requires forall r | r in rules :: Avoids(r, s)
    ensures ApplyStages(rules, s) == s
  {
    if rules != [] {
      AvoidedRuleUnchanged(rules[0], s);
      assert forall r | r in rules[1..] :: r in rules;
      AvoidedStagesUnchanged(rules[1..], s);
    }
  }

  /** Text none of the rewrites touches: a single line with no emphasis
      marker, backquote, bracket, bar or tag, and not starting with a
      heading, quote or list marker. */
  predicate Plain(s: string) {
    && NoTerminator(s)
    && (forall i :: 0 <= i < |s| ==> s[i] != '*' && s[i] != '`' && s[i] != '[' && s[i] != '|' && s[i] != '<')
  }

  predicate PlainLine(s: string) {
    Plain(s) && (s == [] || (s[0] != '#' && s[0] != '>' && !IsDigit(s[0])))
  }

  /** Markup whose only tags are neither list items nor table rows. */
  predicate Tame(s: string) {
    && NoTerminator(s)
    && (forall i :: 0 <= i < |s| ==> s[i] != '*' && s[i] != '`' && s[i] != '[' && s[i] != '|')
    && (forall i :: 0 <= i < |s| - 1 ==> !(s[i] == '<' && (s[i + 1] == 'l' || s[i + 1] == 't')))
    && (s == [] || (s[0] != '#' && s[0] != '>' && !IsDigit(s[0])))
  }

  lemma PlainLineIsTame(s: string)
    requires PlainLine(s)
    ensures Tame(s)
  {
  }

  /** Every stage avoids a tame text. */
  lemma TameAvoidsStages(rules: seq<Rule>, s: string)
    requires Tame(s)
    requires forall r | r in rules :: r in Stages
    ensures forall r | r in rules :: Avoids(r, s)
  {
  }

  /** The last stages, from the quote rule on, avoid markup whose only tags
      are not table rows. */
  lemma LateStagesAvoid(s: string)
    requires NoTerminator(s)
    requires forall i :: 0 <= i < |s| ==> s[i] != '`' && s[i] != '[' && s[i] != '|'
    requires forall i :: 0 <= i < |s| - 1 ==> !(s[i] == '<' && s[i + 1] == 't')
    requires s == [] || s[0] != '>'
    ensures forall r | r in Stages[9..] :: Avoids(r, s)
  {
    assert Stages[9..] == [Line(Quote), InlineCode, Link, TableRow, Run("tr", "table"),
      Literal("\n\n", "</p><p>"), Literal("\n", "<br>")];
  }

  // ---------------------------------------------------------------------
  // parseMarkdown
  // ---------------------------------------------------------------------

  /** The restoring loop from index `i` on, with each block inserted verbatim
      in place of the first occurrence of its placeholder. */
  function RestoreFrom(html: string, blocks: seq<string>, i: nat): string
    decreases |blocks| - i
  {
    if i >= |blocks| then html
    else RestoreFrom(ReplaceFirst(html, Placeholder(i), blocks[i]), blocks, i + 1)
  }

  /** The restoring loop as the source writes it: `String.prototype.replace`
      with the block as a replacement string, so the `$` patterns a block
      holds are expanded instead of copied. */
  function RestoreAsWritten(html: string, blocks: seq<string>, i: nat): string
    decreases |blocks| - i
  {
    if i >= |blocks| then html
    else RestoreAsWritten(ReplaceFirstExpanding(html, Placeholder(i), blocks[i]), blocks, i + 1)
  }

  /** Blocks without `$` are put back the same way by both loops. */
  lemma {:induction false} RestoreWithoutDollar(html: string, blocks: seq<string>, i: nat)
    requires forall k :: i <= k < |blocks| ==> '$' !in blocks[k]
    ensures RestoreAsWritten(html, blocks, i) == RestoreFrom(html, blocks, i)
    decreases |blocks| - i
  {
    if i < |blocks| {
      ExpandingWithoutDollar(html, Placeholder(i), blocks[i]);
      RestoreWithoutDollar(ReplaceFirst(html, Placeholder(i), blocks[i]), blocks, i + 1);
    }
  }

  /** The formatted text with its placeholders, wrapped in one paragraph. */
  function Template(protected: string): string {
    "<p>" + ApplyStages(Stages, protected) + "</p>"
  }

  /** `parseMarkdown(text)` with the restore fixed to insert each block
      verbatim (see `ParseMarkdownAsWritten` for the loop the source has). */
  function ParseMarkdown(text: string): string {
    var segs := Segments(text);
    RestoreFrom(Template(Protect(segs, 0)), RenderBlocks(CodeBodies(segs)), 0)
  }

  /** `parseMarkdown(text)`, whose restoring loop expands the `$` patterns
      of each block. */
  function ParseMarkdownAsWritten(text: string): string {
    var segs := Segments(text);
    RestoreAsWritten(Template(Protect(segs, 0)), RenderBlocks(CodeBodies(segs)), 0)
  }

  /** The output is always one paragraph: it starts with `<p>` and ends with
      `</p>`. */
  lemma ParagraphWrapped(text: string)
    ensures var html := ParseMarkdown(text);
      StartsWith(html, "<p>") && |html| >= 7 && html[|html| - 4..] == "</p>"
  {
    var segs := Segments(text);
    RestoreKeepsParagraph(ApplyStages(Stages, Protect(segs, 0)), RenderBlocks(CodeBodies(segs)), 0);
  }

  /** Putting the blocks back never touches the outer paragraph tags: a
      placeholder begins and ends with `_`, which neither tag holds. */
  lemma {:induction false} RestoreKeepsParagraph(body: string, blocks: seq<string>, i: nat)
    ensures RestoreFrom("<p>" + body + "</p>", blocks, i) == "<p>" + RestoreFrom(body, blocks, i) + "</p>"
    decreases |blocks| - i
  {
    if i < |blocks| {
      var pat := Placeholder(i);
      var block := blocks[i];
      var next := ReplaceFirst(body, pat, block);
      assert pat[0] == '_' && pat[|pat| - 1] == '_';
      assert pat[0] !in "<p>" && pat[|pat| - 1] !in "</p>";
      calc {
        ReplaceFirst("<p>" + body + "</p>", pat, block);
        { assert "<p>" + body + "</p>" == "<p>" + (body + "</p>");
          ReplaceFirstSkipsPrefix("<p>", body + "</p>", pat, block); }
        "<p>" + ReplaceFirst(body + "</p>", pat, block);
        { ReplaceFirstKeepsSuffix(body, "</p>", pat, block); }
        "<p>" + (next + "</p>");
        "<p>" + next + "</p>";
      }
      RestoreKeepsParagraph(next, blocks, i + 1);
    }
  }

  /** The renderer as written also always yields one paragraph. */
  lemma ParagraphWrappedAsWritten(text: string)
    ensures var html := ParseMarkdownAsWritten(text);
      StartsWith(html, "<p>") && |html| >= 7 && html[|html| - 4..] == "</p>"
  {
    var segs := Segments(text);
    var body := ApplyStages(Stages, Protect(segs, 0));
    var html := Template(Protect(segs, 0));
    assert html == "<p>" + body + "</p>";
    assert html[..3] == "<p>" && html[|html| - 4..] == "</p>";
    RestoreAsWrittenKeepsParagraph(html, RenderBlocks(CodeBodies(segs)), 0);
  }

  /** Whatever `$` patterns a block holds, the expanding loop keeps the
      opening `<p>` and the closing `</p>`: the placeholder it replaces
      begins and ends with `_`, which neither tag holds. */
  lemma {:induction false} RestoreAsWrittenKeepsParagraph(html: string, blocks: seq<string>, i: nat)
    requires |html| >= 7 && html[..3] == "<p>" && html[|html| - 4..] == "</p>"
    ensures var r := RestoreAsWritten(html, blocks, i);
      |r| >= 7 && r[..3] == "<p>" && r[|r| - 4..] == "</p>"
    decreases |blocks| - i
  {
    if i < |blocks| {
      var pat := Placeholder(i);
      assert pat[0] == '_' && pat[|pat| - 1] == '_';
      assert pat[0] !in "<p>" && pat[|pat| - 1] !in "</p>";
      ExpandingKeepsEnds(html, pat, blocks[i], "<p>", "</p>");
      RestoreAsWrittenKeepsParagraph(ReplaceFirstExpanding(html, pat, blocks[i]), blocks, i + 1);
    }
  }
}

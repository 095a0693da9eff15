/** What `parseMarkdown` makes of some kinds of input: plain text, headings,
    bulleted and numbered lists, and fenced code. */
module MarkdownProperties {
  import opened Strings
  import opened Wrappers
  import opened Markdown

  /** Text without a backquote is one text segment. */
  lemma SegmentsWithoutBackquote(s: string)
    requires forall i :: 0 <= i < |s| ==> s[i] != '`'
    ensures Segments(s) == [Text(s)]
  {
    forall j: nat ensures !Occurs(s, Fence, j) {
      NoOccurrence(s, Fence, j);
    }
    IndexOfIs(s, Fence, 0, -1);
  }

  /** Text without a backquote has no code block: it is formatted and
      wrapped, and nothing is restored. */
  lemma ParseWithoutCode(text: string)
    requires forall i :: 0 <= i < |text| ==> text[i] != '`'
    ensures ParseMarkdown(text) == Template(text)
  {
    NoCodeParts(text);
    assert RenderBlocks([]) == [];
    RestoreNothing(Template(text));
  }

  /** The parts `parseMarkdown` extracts from text without a backquote. */
  lemma NoCodeParts(text: string)
    requires forall i :: 0 <= i < |text| ==> text[i] != '`'
    ensures Protect(Segments(text), 0) == text
    ensures CodeBodies(Segments(text)) == []
  {
    SegmentsWithoutBackquote(text);
    OneTextSegment(text);
  }

  lemma OneTextSegment(text: string)
    ensures Protect([Text(text)], 0) == text
    ensures CodeBodies([Text(text)]) == []
  {
    assert Protect([Text(text)], 0) == text + Protect([], 0);
  }

  /** With no blocks, restoring changes nothing. */
  lemma RestoreNothing(html: string)
    ensures RestoreFrom(html, [], 0) == html
  {
  }

  /** Text without a backquote whose formatting is known. */
  lemma FormattedWithoutCode(text: string, formatted: string)
    requires forall i :: 0 <= i < |text| ==> text[i] != '`'
    requires ApplyStages(Stages, text) == formatted
    ensures ParseMarkdown(text) == "<p>" + formatted + "</p>"
  {
    ParseWithoutCode(text);
  }

  /** No stage changes markup-free text. */
  lemma TameUnchanged(text: string)
    requires Tame(text)
    ensures ApplyStages(Stages, text) == text
  {
    TameAvoidsStages(Stages, text);
    AvoidedStagesUnchanged(Stages, text);
  }

  /** Markup-free text passes through every stage and is only wrapped in a
      paragraph. */
  lemma PlainTextParagraph(text: string)
    requires Tame(text)
    ensures ParseMarkdown(text) == "<p>" + text + "</p>"
  {
    TameUnchanged(text);
    FormattedWithoutCode(text, text);
  }

  /** Empty input gives an empty paragraph. */
  lemma EmptyInput(text: string)
    requires text == []
    ensures ParseMarkdown(text) == "<p></p>"
  {
    assert Tame(text);
    PlainTextParagraph(text);
  }

  /** A whole-line rule applied to a one-line text that it rewrites. */
  lemma WholeLine(kind: LineKind, s: string, out: string)
    requires NoTerminator(s) && RewriteLine(kind, s) == Some(out)
    ensures Rewrite(Line(kind), s) == out
  {
    assert LineEnd(s, 0) == |s|;
    assert s[0..|s|] == s;
    assert MatchAt(Line(kind), s, 0) == Some(Match(|s|, out));
    assert Scan(Line(kind), s, |s|) == [];
    assert out + [] == out;
  }

  lemma ApplyOne(rules: seq<Rule>, s: string)
    requires rules != []
    ensures ApplyStages(rules, s) == ApplyStages(rules[1..], Rewrite(rules[0], s))
  {
  }

  /** A heading marker followed by a space makes the rest of the line the
      heading's content. */
  lemma HeadingLine(n: nat, x: string)
    ensures RewriteLine(Heading(n), Hashes(n) + " " + x)
      == Some("<" + ("h" + NatToString(n)) + ">" + x + "</" + ("h" + NatToString(n)) + ">")
  {
    var marker := Hashes(n) + " ";
    var line := marker + x;
    assert line[..|marker|] == marker && line[|marker|..] == x;
  }

  /** The level-3 rule turns a `### ` line into a level-3 heading. */
  lemma HeadingRewrite(x: string)
    requires Plain(x)
    ensures Rewrite(Line(Heading(3)), "### " + x) == "<h3>" + x + "</h3>"
  {
    var s := "### " + x;
    var h := "<h3>" + x + "</h3>";
    HeadingLine(3, x);
    assert Hashes(3) == "###" && NatToString(3) == "3";
    assert "h" + NatToString(3) == "h3";
    assert Hashes(3) + " " + x == s;
    assert "<" + "h3" + ">" + x + "</" + "h3" + ">" == h;
    assert NoTerminator(s) by {
      forall i | 0 <= i < |s| ensures !IsLineTerminator(s[i]) {
        if i >= 4 { assert s[i] == x[i - 4]; }
      }
    }
    WholeLine(Heading(3), s, h);
  }

  /** A level-3 heading of plain text holds no markup a later stage rewrites. */
  lemma HeadingTame(x: string)
    requires Plain(x)
    ensures Tame("<h3>" + x + "</h3>")
  {
    var h := "<h3>" + x + "</h3>";
    forall i | 0 <= i < |h| ensures h[i] == '<' ==> i == 0 || i == |h| - 5 {
      if 4 <= i < |h| - 5 { assert h[i] == x[i - 4]; }
    }
  }

  /** The level-3 rule is the first stage; the level-2 and level-1 rules come
      after it and no longer see a marker. */
  lemma HeadingStages(x: string)
    requires Plain(x)
    ensures ApplyStages(Stages, "### " + x) == "<h3>" + x + "</h3>"
  {
    var s := "### " + x;
    var h := "<h3>" + x + "</h3>";
    assert Stages[0] == Line(Heading(3));
    ApplyOne(Stages, s);
    HeadingRewrite(x);
    HeadingTame(x);
    TameAvoidsStages(Stages[1..], h);
    AvoidedStagesUnchanged(Stages[1..], h);
  }

  /** Two texts without a backquote make one. */
  lemma NoBackquoteAppend(a: string, b: string)
    requires forall i :: 0 <= i < |a| ==> a[i] != '`'
    requires forall i :: 0 <= i < |b| ==> b[i] != '`'
    ensures forall i :: 0 <= i < |a + b| ==> (a + b)[i] != '`'
  {
    forall i | 0 <= i < |a + b| ensures (a + b)[i] != '`' {
      if i >= |a| { assert (a + b)[i] == b[i - |a|]; }
    }
  }

  /** A `### ` line becomes a level-3 heading, never a level-2 or level-1 one. */
  lemma HeadingLongestFirst(x: string)
    requires Plain(x)
    ensures ParseMarkdown("### " + x) == "<p>" + ("<h3>" + x + "</h3>") + "</p>"
  {
    HeadingStages(x);
    NoBackquoteAppend("### ", x);
    FormattedWithoutCode("### " + x, "<h3>" + x + "</h3>");
  }

  /** Rules that each leave `s` as it is can be skipped. */
  lemma {:induction false} SkipUnchanged(rules: seq<Rule>, k: nat, s: string)
    requires k <= |rules|
    requires forall i :: 0 <= i < k ==> Rewrite(rules[i], s) == s
    ensures ApplyStages(rules, s) == ApplyStages(rules[k..], s)
  {
    if k > 0 {
      SkipUnchanged(rules[1..], k - 1, s);
      assert rules[1..][k - 1..] == rules[k..];
    }
  }

  /** An emphasis rule leaves alone a line whose only `*` is its first
      character: the longer markers do not start there, and `*` has no
      closing partner. */
  lemma LoneStarUnchanged(r: Rule, s: string)
    requires r.Emphasis? && r.marker != [] && forall i :: 0 <= i < |r.marker| ==> r.marker[i] == '*'
    requires |s| >= 2 && s[0] == '*'
    requires forall i :: 1 <= i < |s| ==> s[i] != '*'
    ensures Rewrite(r, s) == s
  {
    var marker := r.marker;
    forall q | 0 <= q < |s| ensures MatchAt(r, s, q).None? {
      if q > 0 {
        NotStartsWith(s[q..], marker);
      } else if |marker| >= 2 {
        NotStartsWith(s[q..], marker);
      } else {
        forall j: nat | j >= 1 ensures !Occurs(s, marker, j) {
          NoOccurrence(s, marker, j);
        }
      }
    }
    ScanUnchanged(r, s, 0);
  }

  /** The first six stages, headings and emphasis, leave a bullet line alone. */
  lemma BulletSurvivesEmphasis(x: string)
    requires Plain(x)
    ensures forall i :: 0 <= i < 6 ==> Rewrite(Stages[i], "* " + x) == "* " + x
  {
    var s := "* " + x;
    assert NoTerminator(s) by {
      forall i | 0 <= i < |s| ensures !IsLineTerminator(s[i]) {
        if i >= 2 { assert s[i] == x[i - 2]; }
      }
    }
    assert forall i :: 1 <= i < |s| ==> s[i] != '*' by {
      forall i | 1 <= i < |s| ensures s[i] != '*' {
        if i >= 2 { assert s[i] == x[i - 2]; }
      }
    }
    forall i | 0 <= i < 6 ensures Rewrite(Stages[i], s) == s {
      if i < 3 {
        AvoidedRuleUnchanged(Stages[i], s);
      } else {
        LoneStarUnchanged(Stages[i], s);
      }
    }
  }

  /** One item takes up the whole of a line that holds only that item. */
  lemma SingleItemEnd(x: string, t: string)
    requires Plain(x) && t == "<li>" + x + "</li>"
    ensures ItemEnd(t, 0, "li") == |t|
  {
    var close := "</li>";
    WrappedNoTerminator("<li>", x, close, t);
    assert t[..4] == "<li>";
    assert "<" + "li" + ">" == "<li>" && "</" + "li" + ">" == close;
    assert LineEnd(t, 4) == |t|;
    assert t[|t| - 5..] == close;
    assert Occurs(t, close, |t| - 5);
    assert LastOccurrence(t, close, 4, |t|) == |t| - 5;
  }

  /** Text without line terminators, wrapped in two such texts, has none. */
  lemma WrappedNoTerminator(a: string, x: string, b: string, t: string)
    requires NoTerminator(a) && NoTerminator(x) && NoTerminator(b) && t == a + x + b
    ensures NoTerminator(t)
  {
    forall i | 0 <= i < |t| ensures !IsLineTerminator(t[i]) {
      if i < |a| {
        assert t[i] == a[i];
      } else if i < |a| + |x| {
        assert t[i] == x[i - |a|];
      } else {
        assert t[i] == b[i - |a| - |x|];
      }
    }
  }

  /** A single list item with nothing after it is one run. */
  lemma SingleItemRun(x: string)
    requires Plain(x)
    ensures Rewrite(Run("li", "ul"), "<li>" + x + "</li>") == "<ul>" + ("<li>" + x + "</li>") + "</ul>"
  {
    var t := "<li>" + x + "</li>";
    var r := Run("li", "ul");
    SingleItemEnd(x, t);
    assert ItemEnd(t, |t|, "li") == -1;
    assert RunEnd(t, |t|, "li") == |t|;
    assert t[0..|t|] == t;
    assert "<" + "ul" + ">" + t + "</" + "ul" + ">" == "<ul>" + t + "</ul>";
    assert MatchAt(r, t, 0) == Some(Match(|t|, "<ul>" + t + "</ul>"));
    assert Scan(r, t, |t|) == [];
  }

  /** A wrapped list holds nothing a later stage rewrites. */
  lemma WrappedListAvoidsLateStages(x: string)
    requires Plain(x)
    ensures forall r | r in Stages[8..] :: Avoids(r, "<ul>" + ("<li>" + x + "</li>") + "</ul>")
  {
    var u := "<ul>" + ("<li>" + x + "</li>") + "</ul>";
    forall i | 0 <= i < |u| ensures u[i] == '<' ==> i == 0 || i == 4 || i == |u| - 10 || i == |u| - 5 {
      if 8 <= i < |u| - 10 { assert u[i] == x[i - 8]; }
    }
    assert Avoids(Line(Numbered), u);
    LateStagesAvoid(u);
    assert Stages[8..] == [Line(Numbered)] + Stages[9..];
  }

  /** The bullet rule turns a `* ` line into a list item. */
  lemma BulletItem(x: string)
    requires Plain(x) && x != []
    ensures Rewrite(Line(Bullet), "* " + x) == "<li>" + x + "</li>"
  {
    var s := "* " + x;
    assert s[..2] == "* " && s[2..] == x;
    assert NoTerminator(s) by {
      forall i | 0 <= i < |s| ensures !IsLineTerminator(s[i]) {
        if i >= 2 { assert s[i] == x[i - 2]; }
      }
    }
    WholeLine(Bullet, s, "<li>" + x + "</li>");
  }

  /** A bulleted line becomes one item wrapped in one list. */
  lemma BulletStages(x: string)
    requires Plain(x) && x != []
    ensures ApplyStages(Stages, "* " + x) == "<ul>" + ("<li>" + x + "</li>") + "</ul>"
  {
    var s := "* " + x;
    var t := "<li>" + x + "</li>";
    var u := "<ul>" + t + "</ul>";
    BulletSurvivesEmphasis(x);
    SkipUnchanged(Stages, 6, s);
    StagesFromBullet();
    BulletItem(x);
    SingleItemRun(x);
    WrappedListAvoidsLateStages(x);
    TwoStagesThen(Line(Bullet), Run("li", "ul"), Stages[8..], s, t, u);
  }

  /** The item rule and the list rule stand at positions 6 and 7. */
  lemma StagesFromBullet()
    ensures Stages[6..] == [Line(Bullet), Run("li", "ul")] + Stages[8..]
  {
  }

  /** Two rewrites in a row, then stages that leave the result alone. */
  lemma TwoStagesThen(a: Rule, b: Rule, late: seq<Rule>, s: string, t: string, u: string)
    requires Rewrite(a, s) == t && Rewrite(b, t) == u
    requires forall r | r in late :: Avoids(r, u)
    ensures ApplyStages([a, b] + late, s) == u
  {
    ApplyOne([a, b] + late, s);
    assert ([a, b] + late)[1..] == [b] + late;
    ApplyOne([b] + late, t);
    assert ([b] + late)[1..] == late;
    AvoidedStagesUnchanged(late, u);
  }

  /** A `* ` line becomes an item of an unordered list. */
  lemma BulletWrapped(x: string)
    requires Plain(x) && x != []
    ensures ParseMarkdown("* " + x) == "<p>" + ("<ul>" + ("<li>" + x + "</li>") + "</ul>") + "</p>"
  {
    BulletStages(x);
    NoBackquoteAppend("* ", x);
    FormattedWithoutCode("* " + x, "<ul>" + ("<li>" + x + "</li>") + "</ul>");
  }

  /** The numbered-item rule turns a `1. ` line into a list item. */
  lemma NumberedItem(d: char, x: string)
    requires IsDigit(d) && Plain(x) && x != []
    ensures Rewrite(Line(Numbered), [d] + ". " + x) == "<li>" + x + "</li>"
  {
    var s := [d] + ". " + x;
    assert s[1..][0] == '.';
    assert DigitRun(s) == 1;
    assert s[1..][..2] == ". " && s[3..] == x;
    assert NoTerminator(s) by {
      forall i | 0 <= i < |s| ensures !IsLineTerminator(s[i]) {
        if i >= 3 { assert s[i] == x[i - 3]; }
      }
    }
    WholeLine(Numbered, s, "<li>" + x + "</li>");
  }

  /** No stage before the numbered-item rule touches a numbered line. */
  lemma NumberedAvoidsEarlyStages(d: char, x: string)
    requires IsDigit(d) && Plain(x)
    ensures forall i :: 0 <= i < 8 ==> Avoids(Stages[i], [d] + ". " + x)
  {
    var s := [d] + ". " + x;
    forall i | 0 <= i < |s| ensures !IsLineTerminator(s[i]) && s[i] != '*' && s[i] != '<' {
      if i >= 3 { assert s[i] == x[i - 3]; }
    }
  }

  /** An item of plain text holds nothing a stage after the numbered-item
      rule rewrites. */
  lemma ItemAvoidsLateStages(x: string)
    requires Plain(x)
    ensures forall r | r in Stages[9..] :: Avoids(r, "<li>" + x + "</li>")
  {
    var t := "<li>" + x + "</li>";
    forall i | 0 <= i < |t| ensures t[i] == '<' ==> i == 0 || i == |t| - 5 {
      if 4 <= i < |t| - 5 { assert t[i] == x[i - 4]; }
    }
    LateStagesAvoid(t);
  }

  /** A numbered line becomes a list item that no list wraps: the wrapping
      stage has already run when the item is made. */
  lemma NumberedStages(d: char, x: string)
    requires IsDigit(d) && Plain(x) && x != []
    ensures ApplyStages(Stages, [d] + ". " + x) == "<li>" + x + "</li>"
  {
    var s := [d] + ". " + x;
    var t := "<li>" + x + "</li>";
    NumberedAvoidsEarlyStages(d, x);
    forall i | 0 <= i < 8 ensures Rewrite(Stages[i], s) == s {
      AvoidedRuleUnchanged(Stages[i], s);
    }
    SkipUnchanged(Stages, 8, s);
    StagesFromNumbered();
    NumberedItem(d, x);
    ItemAvoidsLateStages(x);
    OneStageThen(Line(Numbered), Stages[9..], s, t);
  }

  /** The numbered-item rule stands at position 8. */
  lemma StagesFromNumbered()
    ensures Stages[8..] == [Line(Numbered)] + Stages[9..]
  {
  }

  /** One rewrite, then stages that leave the result alone. */
  lemma OneStageThen(a: Rule, late: seq<Rule>, s: string, t: string)
    requires Rewrite(a, s) == t
    requires forall r | r in late :: Avoids(r, t)
    ensures ApplyStages([a] + late, s) == t
  {
    ApplyOne([a] + late, s);
    assert ([a] + late)[1..] == late;
    AvoidedStagesUnchanged(late, t);
  }

  /** A `1. ` line becomes a list item without a list around it. */
  lemma NumberedNotWrapped(d: char, x: string)
    requires IsDigit(d) && Plain(x) && x != []
    ensures ParseMarkdown([d] + ". " + x) == "<p>" + ("<li>" + x + "</li>") + "</p>"
  {
    NumberedStages(d, x);
    NoBackquoteAppend([d] + ". ", x);
    FormattedWithoutCode([d] + ". " + x, "<li>" + x + "</li>");
  }

  // Line breaks

  /** A scan copies the stretch before its first match. */
  lemma ScanCopies(r: Rule, s: string, p: nat, q: nat)
    requires p <= q <= |s|
    requires forall k :: p <= k < q ==> MatchAt(r, s, k).None?
    ensures Scan(r, s, p) == s[p..q] + Scan(r, s, q)
  {
    QuietFromNone(r, s, p, q);
    QuietCopies(r, s, p, q);
  }

  /** No match of `r` starts in `s[p..q]`, stated position by position. */
  predicate Quiet(r: Rule, s: string, p: nat, q: nat)
    requires p <= q <= |s|
    decreases q - p
  {
    p == q || (MatchAt(r, s, p).None? && Quiet(r, s, p + 1, q))
  }

  lemma {:induction false} QuietFromNone(r: Rule, s: string, p: nat, q: nat)
    requires p <= q <= |s|
    requires forall k :: p <= k < q ==> MatchAt(r, s, k).None?
    ensures Quiet(r, s, p, q)
    decreases q - p
  {
    if p < q {
      assert MatchAt(r, s, p).None?;
      QuietFromNone(r, s, p + 1, q);
    }
  }

  lemma {:induction false} QuietCopies(r: Rule, s: string, p: nat, q: nat)
    requires p <= q <= |s| && Quiet(r, s, p, q)
    ensures Scan(r, s, p) == s[p..q] + Scan(r, s, q)
    decreases q - p
  {
    if p < q {
      ScanSkip(r, s, p);
      QuietCopies(r, s, p + 1, q);
      PrependCopy(s, p, q, Scan(r, s, p), Scan(r, s, p + 1), Scan(r, s, q));
    }
  }

  /** One character copied in front of a copied stretch. */
  lemma PrependCopy(s: string, p: nat, q: nat, a: string, b: string, c: string)
    requires p < q <= |s| && a == [s[p]] + b && b == s[p + 1..q] + c
    ensures a == s[p..q] + c
  {
    assert s[p..q] == [s[p]] + s[p + 1..q];
  }

  /** Where a rule does not match, the scan copies one character. */
  lemma ScanSkip(r: Rule, s: string, p: nat)
    requires p < |s| && MatchAt(r, s, p).None?
    ensures Scan(r, s, p) == [s[p]] + Scan(r, s, p + 1)
  {
  }

  /** The last stage leaves no line feed: each one becomes `<br>`. */
  lemma {:induction false} BreaksRemoveLineFeeds(s: string, p: nat)
    requires p <= |s|
    ensures '\n' !in Scan(Literal("\n", "<br>"), s, p)
    decreases |s| - p
  {
    if p < |s| {
      BreaksRemoveLineFeeds(s, p + 1);
      var m := MatchAt(Literal("\n", "<br>"), s, p);
      if m.Some? {
        BreaksRemoveLineFeeds(s, m.value.end);
      } else {
        assert s[p..][..1] == [s[p]];
      }
    }
  }

  /** The formatted text never holds a line feed. */
  lemma FormattedHasNoLineFeed(t: string)
    ensures '\n' !in ApplyStages(Stages, t)
  {
    assert Stages == Stages[..15] + [Literal("\n", "<br>")];
    ApplyStagesAppend(Stages[..15], [Literal("\n", "<br>")], t);
    BreaksRemoveLineFeeds(ApplyStages(Stages[..15], t), 0);
  }

  /** Without a code block the whole output is free of line feeds. */
  lemma NoLineFeedWithoutCode(text: string)
    requires forall i :: 0 <= i < |text| ==> text[i] != '`'
    ensures '\n' !in ParseMarkdown(text)
  {
    var formatted := ApplyStages(Stages, text);
    FormattedHasNoLineFeed(text);
    FormattedWithoutCode(text, formatted);
    ParagraphKeepsNoLineFeed(ParseMarkdown(text), formatted);
  }

  lemma ParagraphKeepsNoLineFeed(out: string, formatted: string)
    requires out == "<p>" + formatted + "</p>" && '\n' !in formatted
    ensures '\n' !in out
  {
  }

  /** `a + "\n\n" + b` with no line feed in `a` or `b`: where the scan
      of a line-feed rule can match. */
  lemma LineFeedsOnlyBetween(r: Rule, a: string, sep: string, b: string, s: string)
    requires r.Literal? && r.pattern != [] && r.pattern[0] == '\n'
    requires '\n' !in a && '\n' !in b && s == a + sep + b
    ensures forall k :: 0 <= k < |a| ==> MatchAt(r, s, k).None?
    ensures forall k :: |a| + |sep| <= k < |s| ==> MatchAt(r, s, k).None?
  {
    forall k | 0 <= k < |s| && (k < |a| || |a| + |sep| <= k) ensures MatchAt(r, s, k).None? {
      if k < |a| { assert s[k] == a[k]; } else { assert s[k] == b[k - |a| - |sep|]; }
      NotStartsWith(s[k..], r.pattern);
    }
  }

  /** A line-feed rule replaces its one occurrence between two lines. */
  lemma ReplaceBetween(r: Rule, a: string, b: string)
    requires r.Literal? && r.pattern != [] && r.pattern[0] == '\n'
    requires '\n' !in a && '\n' !in b
    ensures Rewrite(r, a + r.pattern + b) == a + r.replacement + b
  {
    var s := a + r.pattern + b;
    var mid := |a| + |r.pattern|;
    LineFeedsOnlyBetween(r, a, r.pattern, b, s);
    ScanCopies(r, s, 0, |a|);
    LiteralMatch(r, s, |a|);
    ScanMatch(r, s, |a|, Match(mid, r.replacement));
    ScanCopies(r, s, mid, |s|);
    MiddleCut(a, r.pattern, b);
    AppendEmpty(a, r.replacement, b, Scan(r, s, |s|));
  }

  /** A literal rule matches where its pattern stands. */
  lemma LiteralMatch(r: Rule, s: string, p: nat)
    requires r.Literal? && r.pattern != [] && p + |r.pattern| <= |s|
    requires s[p..p + |r.pattern|] == r.pattern
    ensures MatchAt(r, s, p) == Some(Match(p + |r.pattern|, r.replacement))
  {
    assert s[p..][..|r.pattern|] == r.pattern;
  }

  /** Where a rule matches, the scan writes its output and goes on after it. */
  lemma ScanMatch(r: Rule, s: string, p: nat, m: Match)
    requires p < |s| && MatchAt(r, s, p) == Some(m)
    ensures Scan(r, s, p) == m.out + Scan(r, s, m.end)
  {
  }

  lemma MiddleCut<T>(a: seq<T>, x: seq<T>, b: seq<T>)
    ensures (a + x + b)[0..|a|] == a
    ensures (a + x + b)[|a|..|a| + |x|] == x
    ensures (a + x + b)[|a| + |x|..|a + x + b|] == b
  {
  }

  lemma AppendEmpty<T>(a: seq<T>, x: seq<T>, b: seq<T>, e: seq<T>)
    requires e == []
    ensures a + (x + (b + e)) == a + x + b
  {
  }

  lemma ApplyTwo(r1: Rule, r2: Rule, s: string)
    ensures ApplyStages([r1, r2], s) == Rewrite(r2, Rewrite(r1, s))
  {
    assert [r1, r2][1..] == [r2];
    assert [r2][1..] == [];
    assert ApplyStages([r2], Rewrite(r1, s)) == ApplyStages([], Rewrite(r2, Rewrite(r1, s)));
  }

  /** A blank line between two lines closes one paragraph and opens the next. */
  lemma ParagraphBreak(a: string, b: string)
    requires '\n' !in a && '\n' !in b
    ensures ApplyStages(Stages[14..], a + "\n\n" + b) == a + "</p><p>" + b
  {
    var r1 := Literal("\n\n", "</p><p>");
    var r2 := Literal("\n", "<br>");
    var u := a + "</p><p>" + b;
    ReplaceBetween(r1, a, b);
    forall i | 0 <= i < |u| ensures u[i] != '\n' {
      if i < |a| { assert u[i] == a[i]; }
      else if i >= |a| + 7 { assert u[i] == b[i - |a| - 7]; }
    }
    AvoidedRuleUnchanged(r2, u);
    assert Stages[14..] == [r1, r2];
    ApplyTwo(r1, r2, a + "\n\n" + b);
  }

  /** A single line feed becomes `<br>`: the blank-line stage before it
      does not see two line feeds. */
  lemma LineBreak(a: string, b: string)
    requires '\n' !in a && '\n' !in b
    ensures ApplyStages(Stages[14..], a + "\n" + b) == a + "<br>" + b
  {
    var s := a + "\n" + b;
    var r1 := Literal("\n\n", "</p><p>");
    var r2 := Literal("\n", "<br>");
    SingleLineFeedKept(a, b);
    ReplaceBetween(r2, a, b);
    assert Stages[14..] == [r1, r2];
    ApplyTwo(r1, r2, s);
  }

  /** The blank-line rule leaves a single line feed alone. */
  lemma SingleLineFeedKept(a: string, b: string)
    requires '\n' !in a && '\n' !in b
    ensures Rewrite(Literal("\n\n", "</p><p>"), a + "\n" + b) == a + "\n" + b
  {
    var s := a + "\n" + b;
    var r1 := Literal("\n\n", "</p><p>");
    LineFeedsOnlyBetween(r1, a, "\n", b, s);
    if |a| + 1 < |s| { assert s[|a|..][1] == b[0]; }
    NotStartsWith(s[|a|..], "\n\n");
    ScanCopies(r1, s, 0, |s|);
    assert s[0..|s|] == s;
    assert Scan(r1, s, |s|) == [];
  }

  // Fenced code

  /** A character other than a backquote inside a window rules out a fence
      there. */
  lemma NoFenceAcross(s: string, j: nat, k: nat)
    requires j <= k < j + 3 && k < |s| && s[k] != '`'
    ensures !Occurs(s, Fence, j)
  {
    if j + 3 <= |s| {
      assert s[j..j + 3][k - j] == s[k];
    }
  }

  /** The first fence follows text without a backquote. */
  lemma OpenFence(s: string, n: nat)
    requires n + 3 <= |s| && s[n..n + 3] == Fence
    requires forall i :: 0 <= i < n ==> s[i] != '`'
    ensures IndexOf(s, Fence, 0) == n
  {
    forall j | 0 <= j < n ensures !Occurs(s, Fence, j) {
      NoFenceAcross(s, j, j);
    }
    IndexOfIs(s, Fence, 0, n);
  }

  /** A fence lying wholly inside `s[lo..hi]` is a fence of that part. */
  lemma FenceInside(s: string, lo: nat, hi: nat, j: nat)
    requires lo <= j && j + 3 <= hi <= |s|
    ensures Occurs(s, Fence, j) == Occurs(s[lo..hi], Fence, j - lo)
  {
    var c := s[lo..hi];
    var k := j - lo;
    assert s[j] == c[k] && s[j + 1] == c[k + 1] && s[j + 2] == c[k + 2];
    assert s[j..j + 3] == [s[j], s[j + 1], s[j + 2]];
    assert c[k..k + 3] == [c[k], c[k + 1], c[k + 2]];
  }

  /** The closing fence is the first one after the body `c`, which holds no
      fence and does not end in a backquote. */
  lemma CloseFence(s: string, lo: nat, c: string)
    requires lo + |c| + 3 <= |s|
    requires s[lo..lo + |c|] == c
    requires s[lo + |c|..lo + |c| + 3] == Fence
    requires NoFence(c)
    requires c == [] || c[|c| - 1] != '`'
    ensures IndexOf(s, Fence, lo) == lo + |c|
  {
    var hi := lo + |c|;
    forall j | lo <= j < hi ensures !Occurs(s, Fence, j) {
      if j + 3 <= hi {
        FenceInside(s, lo, hi, j);
      } else {
        assert s[hi - 1] == s[lo..hi][|c| - 1];
        NoFenceAcross(s, j, hi - 1);
      }
    }
    IndexOfIs(s, Fence, lo, hi);
  }

  /** What stands where in `a + Fence + c + Fence + b`. */
  lemma OneBlockLayout(a: string, c: string, b: string, s: string)
    requires forall i :: 0 <= i < |a| ==> a[i] != '`'
    requires s == a + Fence + c + Fence + b
    ensures |s| == |a| + 3 + |c| + 3 + |b|
    ensures forall i :: 0 <= i < |a| ==> s[i] != '`'
    ensures s[|a|..|a| + 3] == Fence
    ensures s[|a| + 3..|a| + 3 + |c|] == c
    ensures s[|a| + 3 + |c|..|a| + 3 + |c| + 3] == Fence
    ensures s[..|a|] == a && s[|a| + 3 + |c| + 3..] == b
  {
    assert forall i :: 0 <= i < |a| ==> s[i] == a[i];
  }

  /** Where the fences of `a + Fence + c + Fence + b` are. */
  lemma OneBlockFences(a: string, c: string, b: string, s: string)
    requires forall i :: 0 <= i < |a| ==> a[i] != '`'
    requires NoFence(c) && (c == [] || c[|c| - 1] != '`')
    requires s == a + Fence + c + Fence + b
    ensures IndexOf(s, Fence, 0) == |a|
    ensures IndexOf(s, Fence, |a| + 3) == |a| + 3 + |c|
  {
    var lo := |a| + 3;
    OneBlockLayout(a, c, b, s);
    OpenFence(s, |a|);
    CloseFence(s, lo, c);
  }

  /** Text with one fenced block cuts into the text before it, the block and
      the text after it. */
  lemma OneBlockSegments(a: string, c: string, b: string, s: string)
    requires forall i :: 0 <= i < |a| ==> a[i] != '`'
    requires forall i :: 0 <= i < |b| ==> b[i] != '`'
    requires NoFence(c) && (c == [] || c[|c| - 1] != '`')
    requires s == a + Fence + c + Fence + b
    ensures Segments(s) == [Text(a), Code(c), Text(b)]
  {
    OneBlockFences(a, c, b, s);
    OneBlockLayout(a, c, b, s);
    SegmentsWithoutBackquote(b);
    BlockThenText(s, |a|, |a| + 3 + |c|, a, c, b);
  }

  /** A block whose closing fence is followed by plain text. */
  lemma BlockThenText(s: string, open: int, close: int, a: string, c: string, b: string)
    requires open == IndexOf(s, Fence, 0) && open >= 0
    requires close == IndexOf(s, Fence, open + 3) && close >= 0
    requires s[..open] == a && s[open + 3..close] == c && s[close + 3..] == b
    requires Segments(b) == [Text(b)]
    ensures Segments(s) == [Text(a), Code(c), Text(b)]
  {
    SegmentsStep(s, open, close);
    assert [Text(a), Code(c)] + [Text(b)] == [Text(a), Code(c), Text(b)];
  }

  /** The placeholder text and the block list of one fenced block. */
  lemma OneBlockParts(a: string, c: string, b: string)
    ensures Protect([Text(a), Code(c), Text(b)], 0) == a + Placeholder(0) + b
    ensures CodeBodies([Text(a), Code(c), Text(b)]) == [c]
    ensures RenderBlocks([c]) == [CodeBlockHtml(c)]
  {
    var segs := [Text(a), Code(c), Text(b)];
    assert segs[1..] == [Code(c), Text(b)] && segs[1..][1..] == [Text(b)];
    assert Protect([Text(b)], 1) == b + Protect([], 1);
    assert CodeBodies([Text(b)]) == [];
    assert CodeBodies([Code(c), Text(b)]) == [c];
  }

  /** The placeholder holds nothing a stage rewrites. */
  lemma PlaceholderIsTame(a: string, b: string)
    requires PlainLine(a) && Plain(b)
    ensures Tame(a + Placeholder(0) + b)
  {
    var p := Placeholder(0);
    assert NatToString(0) == "0";
    assert p == "__CODE_BLOCK_0__";
    var t := a + p + b;
    forall i | 0 <= i < |t|
      ensures !IsLineTerminator(t[i]) && t[i] != '*' && t[i] != '`' && t[i] != '[' && t[i] != '|' && t[i] != '<'
    {
      if i < |a| { assert t[i] == a[i]; }
      else if i < |a| + |p| { assert t[i] == p[i - |a|]; }
      else { assert t[i] == b[i - |a| - |p|]; }
    }
    if a == [] { assert t[0] == '_'; } else { assert t[0] == a[0]; }
  }

  /** Putting back one block where its placeholder stands. */
  lemma RestoreOne(a: string, b: string, block: string)
    requires '_' !in a
    ensures RestoreFrom("<p>" + (a + Placeholder(0) + b) + "</p>", [block], 0) == "<p>" + a + block + b + "</p>"
  {
    var p := Placeholder(0);
    assert p[0] == '_';
    var html := "<p>" + (a + p + b) + "</p>";
    assert html == ("<p>" + a) + (p + (b + "</p>"));
    ReplaceFirstSkipsPrefix("<p>" + a, p + (b + "</p>"), p, block);
    assert (p + (b + "</p>"))[..|p|] == p && (p + (b + "</p>"))[|p|..] == b + "</p>";
    assert ReplaceFirst(html, p, block) == "<p>" + a + block + b + "</p>";
  }

  /** A fenced block between two plain lines is rendered by itself, its
      body escaped and untouched by every formatting stage, and the text
      around it is left as it is. */
  lemma FencedBlockVerbatim(a: string, c: string, b: string)
    requires PlainLine(a) && '_' !in a && Plain(b)
    requires NoFence(c) && (c == [] || c[|c| - 1] != '`')
    ensures ParseMarkdown(a + Fence + c + Fence + b) == "<p>" + a + CodeBlockHtml(c) + b + "</p>"
  {
    var s := a + Fence + c + Fence + b;
    var protected := a + Placeholder(0) + b;
    OneBlockSegments(a, c, b, s);
    OneBlockParts(a, c, b);
    PlaceholderIsTame(a, b);
    TameUnchanged(protected);
    RestoreOne(a, b, CodeBlockHtml(c));
  }

  // ---------------------------------------------------------------------
  // `$` patterns in a restored block
  // ---------------------------------------------------------------------

  /** The as-written loop putting back one block: the block goes through
      `$` expansion, with the text before and after the placeholder at hand. */
  lemma RestoreOneAsWritten(a: string, b: string, block: string)
    requires '_' !in a
    ensures RestoreAsWritten("<p>" + (a + Placeholder(0) + b) + "</p>", [block], 0)
      == "<p>" + a + Substitute(block, Placeholder(0), "<p>" + a, b + "</p>") + b + "</p>"
  {
    var p := Placeholder(0);
    var html := "<p>" + (a + p + b) + "</p>";
    var pre, post := "<p>" + a, b + "</p>";
    assert p[0] == '_' && '_' !in pre;
    assert html == pre + p + post;
    PatternFound(pre, p, post, html);
    var x := Substitute(block, p, pre, post);
    var r := ReplaceFirstExpanding(html, p, block);
    assert r == pre + x + post;
    assert RestoreAsWritten(html, [block], 0) == RestoreAsWritten(r, [block], 1) == r;
    assert pre + x + post == "<p>" + a + x + b + "</p>";
  }

  /** A pattern whose first character the text before it lacks is first
      found right after that text. */
  lemma PatternFound(pre: string, p: string, post: string, s: string)
    requires |p| > 0 && p[0] !in pre && s == pre + p + post
    ensures IndexOf(s, p, 0) == |pre|
    ensures s[..|pre|] == pre && s[|pre| + |p|..] == post
  {
    assert s[..|pre|] == pre && s[|pre|..|pre| + |p|] == p && s[|pre| + |p|..] == post;
    forall j | 0 <= j < |pre| ensures !Occurs(s, p, j) {
      assert s[j] == pre[j];
    }
    IndexOfIs(s, p, 0, |pre|);
  }

  /** The as-written renderer on a fenced block between two plain lines. */
  lemma FencedBlockAsWritten(a: string, c: string, b: string)
    requires PlainLine(a) && '_' !in a && Plain(b)
    requires NoFence(c) && (c == [] || c[|c| - 1] != '`')
    ensures ParseMarkdownAsWritten(a + Fence + c + Fence + b)
      == "<p>" + a + Substitute(CodeBlockHtml(c), Placeholder(0), "<p>" + a, b + "</p>") + b + "</p>"
  {
    var s := a + Fence + c + Fence + b;
    var protected := a + Placeholder(0) + b;
    OneBlockSegments(a, c, b, s);
    OneBlockParts(a, c, b);
    PlaceholderIsTame(a, b);
    TameUnchanged(protected);
    RestoreOneAsWritten(a, b, CodeBlockHtml(c));
  }

  /** The block markup around a body holds no `$`. */
  lemma CodeMarkupHasNoDollar()
    ensures '$' !in CodeOpen([]) && '$' !in CodeClose
  {
    CopyButtonHasNoDollar();
    assert '$' !in "</code>" && '$' !in "</pre>";
  }

  lemma CopyButtonHasNoDollar()
    ensures '$' !in CopyButton
  {
  }

  /** Escaping brings in no `$`. */
  lemma {:induction false} EscapeKeepsNoDollar(s: string)
    requires '$' !in s
    ensures '$' !in EscapeHtml(s)
  {
    if s != [] {
      assert s == [s[0]] + s[1..];
      assert '$' !in EscapeChar(s[0]);
      EscapeKeepsNoDollar(s[1..]);
    }
  }

  /** A block body without `$` is rendered without `$`. */
  lemma BlockWithoutDollar(code: string)
    requires '$' !in code
    ensures '$' !in CodeBlockHtml(code)
  {
    var trimmed := Trim(code);
    TrimWithoutDollar(code, trimmed);
    var lang, content := FenceLanguage(trimmed), FenceContent(trimmed);
    FencePartsWithoutDollar(trimmed, lang, content);
    EscapeKeepsNoDollar(content);
    CodeOpenWithoutDollar(lang);
    CodeMarkupHasNoDollar();
    AbsentFromAll('$', CodeOpen(lang), EscapeHtml(content), CodeClose);
  }

  lemma TrimWithoutDollar(code: string, trimmed: string)
    requires '$' !in code && trimmed == Trim(code)
    ensures '$' !in trimmed
  {
    var start := TrimStart(code);
    assert '$' !in start by { assert start == code[|code| - |start|..]; }
    assert trimmed == start[..|trimmed|];
  }

  lemma FencePartsWithoutDollar(t: string, lang: string, content: string)
    requires '$' !in t && lang == FenceLanguage(t) && content == FenceContent(t)
    ensures '$' !in lang && '$' !in content
  {
    LanguageTag(t, lang, content);
  }

  lemma CodeOpenWithoutDollar(lang: string)
    requires '$' !in lang
    ensures '$' !in CodeOpen(lang)
  {
    AbsentFromAll('$', "<pre><code class=\"language-", lang, "\">");
  }

  lemma AbsentFromAll<T>(x: T, a: seq<T>, b: seq<T>, c: seq<T>)
    requires x !in a && x !in b && x !in c
    ensures x !in a + b + c
  {
  }

  /** When no fenced block holds `$`, the renderer as written and the one
      with the verbatim restore give the same HTML. */
  lemma AsWrittenWithoutDollar(text: string)
    requires forall k :: 0 <= k < |CodeBodies(Segments(text))| ==> '$' !in CodeBodies(Segments(text))[k]
    ensures ParseMarkdownAsWritten(text) == ParseMarkdown(text)
  {
    var segs := Segments(text);
    var bodies := CodeBodies(segs);
    var blocks := RenderBlocks(bodies);
    forall k | 0 <= k < |blocks| ensures '$' !in blocks[k] {
      BlockWithoutDollar(bodies[k]);
    }
    RestoreWithoutDollar(Template(Protect(segs, 0)), blocks, 0);
  }

  /** Text without a backquote has no blocks to restore, so both renderers
      agree on it. */
  lemma AsWrittenWithoutBackquote(text: string)
    requires forall i :: 0 <= i < |text| ==> text[i] != '`'
    ensures ParseMarkdownAsWritten(text) == ParseMarkdown(text)
  {
    NoCodeParts(text);
  }

  /** `PlainTextParagraph` for the renderer as written. */
  lemma PlainTextParagraphAsWritten(text: string)
    requires Tame(text)
    ensures ParseMarkdownAsWritten(text) == "<p>" + text + "</p>"
  {
    PlainTextParagraph(text);
    AsWrittenWithoutBackquote(text);
  }

  /** `EmptyInput` for the renderer as written. */
  lemma EmptyInputAsWritten(text: string)
    requires text == []
    ensures ParseMarkdownAsWritten(text) == "<p></p>"
  {
    EmptyInput(text);
    AsWrittenWithoutBackquote(text);
  }

  /** `HeadingLongestFirst` for the renderer as written. */
  lemma HeadingLongestFirstAsWritten(x: string)
    requires Plain(x)
    ensures ParseMarkdownAsWritten("### " + x) == "<p>" + ("<h3>" + x + "</h3>") + "</p>"
  {
    HeadingLongestFirst(x);
    NoBackquoteAppend("### ", x);
    AsWrittenWithoutBackquote("### " + x);
  }

  /** `BulletWrapped` for the renderer as written. */
  lemma BulletWrappedAsWritten(x: string)
    requires Plain(x) && x != []
    ensures ParseMarkdownAsWritten("* " + x) == "<p>" + ("<ul>" + ("<li>" + x + "</li>") + "</ul>") + "</p>"
  {
    BulletWrapped(x);
    NoBackquoteAppend("* ", x);
    AsWrittenWithoutBackquote("* " + x);
  }

  /** `NumberedNotWrapped` for the renderer as written. */
  lemma NumberedNotWrappedAsWritten(d: char, x: string)
    requires IsDigit(d) && Plain(x) && x != []
    ensures ParseMarkdownAsWritten([d] + ". " + x) == "<p>" + ("<li>" + x + "</li>") + "</p>"
  {
    NumberedNotWrapped(d, x);
    NoBackquoteAppend([d] + ". ", x);
    AsWrittenWithoutBackquote([d] + ". " + x);
  }

  /** `NoLineFeedWithoutCode` for the renderer as written. */
  lemma NoLineFeedWithoutCodeAsWritten(text: string)
    requires forall i :: 0 <= i < |text| ==> text[i] != '`'
    ensures '\n' !in ParseMarkdownAsWritten(text)
  {
    NoLineFeedWithoutCode(text);
    AsWrittenWithoutBackquote(text);
  }

  /** The block `echo $$` has no language tag and is shown as it is. */
  lemma EchoBlock(c: string)
    requires c == "echo $$"
    ensures CodeBlockHtml(c) == CodeOpen([]) + c + CodeClose
  {
    TrimUntouched(c);
    assert '\n' !in c && c[4] == ' ';
    assert FirstIndex(c, '\n') == |c|;
    LanguageTagPresent(c);
    assert forall i :: 0 <= i < |c| ==> c[i] != '&' && c[i] != '\U{A0}' && c[i] != '<' && c[i] != '>';
    PlainBlock(c, FenceLanguage(c), FenceContent(c));
  }

  /** A block without a language tag and without characters to escape is
      shown as it is. */
  lemma PlainBlock(c: string, lang: string, code: string)
    requires Trim(c) == c && lang == FenceLanguage(c) && code == FenceContent(c) && lang == []
    requires forall i :: 0 <= i < |c| ==> c[i] != '&' && c[i] != '\U{A0}' && c[i] != '<' && c[i] != '>'
    ensures CodeBlockHtml(c) == CodeOpen([]) + c + CodeClose
  {
    LanguageTag(c, lang, code);
    assert EscapeHtml(code) == c;
  }

  /** `$$` in a block is inserted as one `$`. */
  lemma DoubledDollar(u: string, v: string, w: string, matched: string, before: string, after: string)
    requires '$' !in u && '$' !in v && w == u + "$$" + v
    ensures Substitute(w, matched, before, after) == u + "$" + v
  {
    assert w == u + ("$$" + v);
    SubstituteLiteralPrefix(u, "$$" + v, matched, before, after);
    assert ("$$" + v)[2..] == v;
    SubstituteLiteral(v, matched, before, after);
  }

  lemma EmptyAround(x: string)
    ensures "<p>" + [] + x + [] + "</p>" == "<p>" + x + "</p>"
    ensures "<p>" + [] == "<p>" && [] + "</p>" == "</p>"
  {
  }

  /** Text that is one fenced block and nothing else. */
  lemma LoneBlock(c: string, s: string)
    requires NoFence(c) && (c == [] || c[|c| - 1] != '`')
    requires s == Fence + c + Fence
    ensures ParseMarkdown(s) == "<p>" + CodeBlockHtml(c) + "</p>"
  {
    assert s == [] + Fence + c + Fence + [];
    FencedBlockVerbatim([], c, []);
    EmptyAround(CodeBlockHtml(c));
  }

  /** The as-written renderer on text that is one fenced block. */
  lemma LoneBlockAsWritten(c: string, s: string)
    requires NoFence(c) && (c == [] || c[|c| - 1] != '`')
    requires s == Fence + c + Fence
    ensures ParseMarkdownAsWritten(s) == "<p>" + Substitute(CodeBlockHtml(c), Placeholder(0), "<p>", "</p>") + "</p>"
  {
    var x := Substitute(CodeBlockHtml(c), Placeholder(0), "<p>", "</p>");
    EmptyIsPlain();
    FencedBlockAsWritten([], c, []);
    EmptyEnds(Fence);
    EmptyEnds(Fence + c + Fence);
    EmptyEnds("<p>");
    EmptyEnds("</p>");
    EmptyEnds("<p>" + x);
  }

  lemma EmptyIsPlain()
    ensures PlainLine([]) && '_' !in [] && Plain([])
  {
  }

  /** The empty string on either side of a concatenation. */
  lemma EmptyEnds(x: string)
    ensures [] + x == x && x + [] == x
  {
  }

  /** Moving the cut inside a concatenation. */
  lemma CutMiddle(p: string, c: string, q: string, x: string, y: string)
    requires c == x + y
    ensures p + c + q == (p + x) + y + q
  {
  }

  lemma EchoParts(c: string, d: string)
    requires c == "echo $$" && d == "echo $"
    ensures c == "echo " + "$$" && d == "echo " + "$"
  {
  }

  /** The HTML of the block `echo $$`, verbatim and after `$` expansion. */
  lemma EchoBlockExpanded(c: string, d: string, h: string)
    requires c == "echo $$" && d == "echo $" && h == CodeBlockHtml(c)
    ensures h == CodeOpen([]) + c + CodeClose
    ensures Substitute(h, Placeholder(0), "<p>", "</p>") == CodeOpen([]) + d + CodeClose
  {
    EchoBlock(c);
    CodeMarkupHasNoDollar();
    var u := CodeOpen([]) + "echo ";
    EchoParts(c, d);
    CutMiddle(CodeOpen([]), c, CodeClose, "echo ", "$$");
    DoubledDollar(u, CodeClose, h, Placeholder(0), "<p>", "</p>");
    CutMiddle(CodeOpen([]), d, CodeClose, "echo ", "$");
  }

  /** A fenced block holding `echo $$` loses a `$` in the renderer as
      written, while the verbatim restore keeps the block as it is. */
  lemma DollarPairCollapses(c: string, d: string, s: string)
    requires c == "echo $$" && d == "echo $" && s == Fence + c + Fence
    ensures ParseMarkdown(s) == "<p>" + (CodeOpen([]) + c + CodeClose) + "</p>"
    ensures ParseMarkdownAsWritten(s) == "<p>" + (CodeOpen([]) + d + CodeClose) + "</p>"
  {
    assert forall i :: 0 <= i < |c| ==> c[i] != '`';
    forall k: nat ensures !Occurs(c, Fence, k) {
      NoOccurrence(c, Fence, k);
    }
    LoneBlock(c, s);
    LoneBlockAsWritten(c, s);
    EchoBlockExpanded(c, d, CodeBlockHtml(c));
  }
}

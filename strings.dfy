/** String operations of the JavaScript runtime that the chat widget and its
    relays rely on: `split` and `join`, `trim`, `startsWith`, `replace` with a
    literal pattern, and decimal formatting of a natural number. */
module Strings {

  /** The characters at which a JavaScript regular expression's `^` and `$`
      (in multiline mode) and `.` stop: line feed, carriage return, and the
      Unicode line and paragraph separators. */
  predicate IsLineTerminator(c: char) {
    c == '\n' || c == '\r' || c == '\U{2028}' || c == '\U{2029}'
  }

  /** The white space that `String.prototype.trim` removes: the ECMAScript
      WhiteSpace and LineTerminator characters. */
  predicate IsWhitespace(c: char) {
    c == '\t' || c == '\U{B}' || c == '\U{C}' || c == ' ' || c == '\U{A0}' || c == '\U{FEFF}'
    || c == '\U{1680}' || ('\U{2000}' <= c <= '\U{200A}') || c == '\U{202F}' || c == '\U{205F}'
    || c == '\U{3000}' || IsLineTerminator(c)
  }

  predicate IsDigit(c: char) { '0' <= c <= '9' }

  predicate StartsWith(s: string, prefix: string) {
    |prefix| <= |s| && s[..|prefix|] == prefix
  }

  /** `pattern` occurs in `s` at index `i`. */
  predicate Occurs(s: string, pattern: string, i: nat) {
    i + |pattern| <= |s| && s[i..i + |pattern|] == pattern
  }

  /** No occurrence starts at a character other than the pattern's first. */
  lemma NoOccurrence(s: string, pattern: string, j: nat)
    requires |pattern| > 0 && (j >= |s| || s[j] != pattern[0])
    ensures !Occurs(s, pattern, j)
  {
    if j + |pattern| <= |s| {
      assert s[j..j + |pattern|][0] == s[j];
    }
  }

  /** `s.indexOf(pattern, from)`: the first occurrence at or after `from`, or -1. */
  function IndexOf(s: string, pattern: string, from: nat): (r: int)
    requires |pattern| > 0
    ensures r == -1 || (from <= r && Occurs(s, pattern, r))
    ensures forall j :: from <= j && (r == -1 || j < r) ==> !Occurs(s, pattern, j)
    decreases |s| - from
  {
    if from + |pattern| > |s| then -1
    else if Occurs(s, pattern, from) then from
    else IndexOf(s, pattern, from + 1)
  }

  /** The first occurrence is the only position with an occurrence there and
      none between `from` and it. */
  lemma IndexOfIs(s: string, pattern: string, from: nat, r: int)
    requires |pattern| > 0
    requires r == -1 || (from <= r && Occurs(s, pattern, r))
    requires forall j :: from <= j && (r == -1 || j < r) ==> !Occurs(s, pattern, j)
    ensures IndexOf(s, pattern, from) == r
  {
    var x := IndexOf(s, pattern, from);
    if r != -1 && x != r {
      // the first occurrence is at `r` at the latest, so it is not -1
      NotAbsent(s, pattern, from, x, r);
    }
  }

  lemma NotAbsent(s: string, pattern: string, from: nat, x: int, r: nat)
    requires |pattern| > 0 && x == IndexOf(s, pattern, from)
    requires from <= r && Occurs(s, pattern, r)
    ensures x != -1 && x <= r
  {
  }

  /** The last occurrence of `pattern` lying wholly in `s[lo..hi]`, or -1. */
  function LastOccurrence(s: string, pattern: string, lo: nat, hi: nat): (r: int)
    requires |pattern| > 0 && hi <= |s|
    ensures r == -1 || (lo <= r && r + |pattern| <= hi && Occurs(s, pattern, r))
    ensures forall j :: lo <= j && j + |pattern| <= hi && r < j ==> !Occurs(s, pattern, j)
    decreases hi
  {
    if hi < lo + |pattern| then -1
    else if Occurs(s, pattern, hi - |pattern|) then hi - |pattern|
    else LastOccurrence(s, pattern, lo, hi - 1)
  }

  /** `s.trimStart()`. */
  function TrimStart(s: string): (r: string)
    ensures |r| <= |s| && r == s[|s| - |r|..]
    ensures r == [] || !IsWhitespace(r[0])
    ensures forall i :: 0 <= i < |s| - |r| ==> IsWhitespace(s[i])
  {
    if s == [] || !IsWhitespace(s[0]) then s else TrimStart(s[1..])
  }

  /** `s.trimEnd()`. */
  function TrimEnd(s: string): (r: string)
    ensures |r| <= |s| && r == s[..|r|]
    ensures r == [] || !IsWhitespace(r[|r| - 1])
    ensures forall i :: |r| <= i < |s| ==> IsWhitespace(s[i])
  {
    if s == [] || !IsWhitespace(s[|s| - 1]) then s else TrimEnd(s[..|s| - 1])
  }

  /** `s.trim()`: the longest infix of `s` that neither starts nor ends with
      white space. */
  function Trim(s: string): (r: string)
  {
    TrimEnd(TrimStart(s))
  }

  /** Trimming leaves a string that neither starts nor ends with white
      space as it is. */
  lemma TrimUntouched(s: string)
    requires s != [] && !IsWhitespace(s[0]) && !IsWhitespace(s[|s| - 1])
    ensures Trim(s) == s
  {
  }

  /** A string holds a non-white-space character exactly when trimming leaves
      something: the test `line.trim()` is truthy. */
  lemma {:induction false} TrimEmptyIffBlank(s: string)
    ensures Trim(s) == [] <==> Blank(s)
  {
    var t := TrimStart(s);
    if t != [] {
      assert s[|s| - |t|] == t[0];
    }
  }

  /** The index of the first `sep` in `s`, or `|s|` when there is none. */
  function FirstIndex(s: string, sep: char): (i: nat)
    ensures i <= |s| && (i < |s| ==> s[i] == sep)
    ensures forall k :: 0 <= k < i ==> s[k] != sep
  {
    if s == [] || s[0] == sep then 0 else 1 + FirstIndex(s[1..], sep)
  }

  /** `s.split(sep)` for a one-character separator: the pieces between
      occurrences of `sep`, at least one piece. */
  function Split(s: string, sep: char): (parts: seq<string>)
    ensures |parts| >= 1
    decreases |s|
  {
    var i := FirstIndex(s, sep);
    if i == |s| then [s] else [s[..i]] + Split(s[i + 1..], sep)
  }

  /** No piece of a split holds the separator. */
  lemma {:induction false} SplitPiecesLackSeparator(s: string, sep: char)
    ensures forall i :: 0 <= i < |Split(s, sep)| ==> sep !in Split(s, sep)[i]
    decreases |s|
  {
    var i := FirstIndex(s, sep);
    if i < |s| {
      SplitPiecesLackSeparator(s[i + 1..], sep);
      assert sep !in s[..i];
    }
  }

  /** `parts.join(sep)`. */
  function Join(parts: seq<string>, sep: string): (r: string)
    decreases |parts|
  {
    if |parts| == 0 then []
    else if |parts| == 1 then parts[0]
    else parts[0] + sep + Join(parts[1..], sep)
  }

  /** Where part `k` begins in `Join(parts, sep)`. */
  function JoinOffset(parts: seq<string>, sep: string, k: nat): nat
    requires k < |parts|
  {
    if k == 0 then 0 else JoinOffset(parts, sep, k - 1) + |parts[k - 1]| + |sep|
  }

  /** Part `k` of a join is found at its offset. */
  lemma {:induction false} JoinAt(parts: seq<string>, sep: string, k: nat)
    requires k < |parts|
    ensures JoinOffset(parts, sep, k) + |parts[k]| <= |Join(parts, sep)|
    ensures Join(parts, sep)[JoinOffset(parts, sep, k)..JoinOffset(parts, sep, k) + |parts[k]|] == parts[k]
    decreases k
  {
    if |parts| > 1 {
      var head := parts[0] + sep;
      var rest := Join(parts[1..], sep);
      assert Join(parts, sep) == head + rest;
      if k == 0 {
        SliceFront(parts[0], sep, rest);
      } else {
        JoinAt(parts[1..], sep, k - 1);
        JoinOffsetShift(parts, sep, k);
        var i := JoinOffset(parts[1..], sep, k - 1);
        assert parts[1..][k - 1] == parts[k];
        SliceAfter(head, rest, i, i + |parts[k]|);
      }
    }
  }

  /** The front of `a + b + c` is `a`. */
  lemma SliceFront<T>(a: seq<T>, b: seq<T>, c: seq<T>)
    ensures (a + b + c)[..|a|] == a
  {
  }

  /** A slice of `a + b` past `a` is a slice of `b`. */
  lemma SliceAfter<T>(a: seq<T>, b: seq<T>, i: nat, j: nat)
    requires i <= j <= |b|
    ensures (a + b)[|a| + i..|a| + j] == b[i..j]
  {
  }

  /** The separator follows every part but the last. */
  lemma {:induction false} SeparatorAt(parts: seq<string>, sep: string, k: nat)
    requires k + 1 < |parts|
    ensures Occurs(Join(parts, sep), sep, JoinOffset(parts, sep, k) + |parts[k]|)
    decreases k
  {
    var rest := Join(parts[1..], sep);
    assert Join(parts, sep) == parts[0] + sep + rest;
    if k == 0 {
      OccursBetween(parts[0], sep, rest, sep, 0);
    } else {
      SeparatorAt(parts[1..], sep, k - 1);
      JoinOffsetShift(parts, sep, k);
      OccursBetween(parts[0] + sep, rest, [], sep, JoinOffset(parts[1..], sep, k - 1) + |parts[k]|);
      assert parts[0] + sep + rest + [] == Join(parts, sep);
    }
  }

  lemma {:induction false} JoinOffsetShift(parts: seq<string>, sep: string, k: nat)
    requires 0 < k < |parts|
    ensures JoinOffset(parts, sep, k) == |parts[0]| + |sep| + JoinOffset(parts[1..], sep, k - 1)
    decreases k
  {
    if k > 1 {
      JoinOffsetShift(parts, sep, k - 1);
    }
  }

  /** Part `k` of a join sits at its offset, whatever surrounds the join. */
  lemma PartInside(a: string, parts: seq<string>, sep: string, c: string, k: nat)
    requires k < |parts|
    ensures Occurs(a + Join(parts, sep) + c, parts[k], |a| + JoinOffset(parts, sep, k))
  {
    JoinAt(parts, sep, k);
    OccursBetween(a, Join(parts, sep), c, parts[k], JoinOffset(parts, sep, k));
  }

  lemma OccursBetween(a: string, b: string, c: string, p: string, i: nat)
    requires i + |p| <= |b| && b[i..i + |p|] == p
    ensures Occurs(a + b + c, p, |a| + i)
  {
    assert (a + b + c)[|a| + i..|a| + i + |p|] == b[i..i + |p|];
  }

  /** The concatenation of all parts, `parts.join('')`. */
  function Concat(parts: seq<string>): string {
    Join(parts, [])
  }

  /** Joining the pieces of a split with the same separator gives back the
      string: `s.split(c).join(c) === s`. */
  lemma {:induction false} JoinSplit(s: string, sep: char)
    ensures Join(Split(s, sep), [sep]) == s
    decreases |s|
  {
    var i := FirstIndex(s, sep);
    if i < |s| {
      var rest := s[i + 1..];
      JoinSplit(rest, sep);
      var tail := Split(rest, sep);
      assert ([s[..i]] + tail)[1..] == tail;
      assert s == s[..i] + [sep] + rest;
    }
  }

  /** Splitting at a separator occurrence splits the two sides apart. */
  lemma {:induction false} SplitAround(x: string, sep: char, y: string)
    ensures Split(x + [sep] + y, sep) == Split(x, sep) + Split(y, sep)
    decreases |x|
  {
    var i := FirstIndex(x, sep);
    FirstIndexBefore(x, sep, y);
    if i == |x| {
      SplitAroundLast(x, sep, y, x + [sep] + y);
    } else {
      SplitAround(x[i + 1..], sep, y);
      SplitAroundInner(x, sep, y, x + [sep] + y, i, x[i + 1..]);
    }
  }

  /** The separator added after `x` is the first one: `x` is a whole piece. */
  lemma SplitAroundLast(x: string, sep: char, y: string, s: string)
    requires s == x + [sep] + y && FirstIndex(x, sep) == |x| && FirstIndex(s, sep) == |x|
    ensures Split(s, sep) == Split(x, sep) + Split(y, sep)
  {
    SplitStep(s, sep, |x|);
    assert s[..|x|] == x;
    assert s[|x| + 1..] == y;
  }

  /** `x` holds a separator at `i`: the first piece is shared, the rest recurses. */
  lemma SplitAroundInner(x: string, sep: char, y: string, s: string, i: nat, tail: string)
    requires s == x + [sep] + y && i == FirstIndex(x, sep) && i < |x|
    requires FirstIndex(s, sep) == i && tail == x[i + 1..]
    requires Split(tail + [sep] + y, sep) == Split(tail, sep) + Split(y, sep)
    ensures Split(s, sep) == Split(x, sep) + Split(y, sep)
  {
    SliceAround(x, sep, y, i);
    SplitStep(s, sep, i);
    SplitStep(x, sep, i);
    ConsThenConcat(x[..i], Split(tail, sep), Split(y, sep));
  }

  /** Cutting `x + [c] + y` inside `x` around position `i`. */
  lemma SliceAround<T>(x: seq<T>, c: T, y: seq<T>, i: nat)
    requires i < |x|
    ensures (x + [c] + y)[..i] == x[..i]
    ensures (x + [c] + y)[i + 1..] == x[i + 1..] + [c] + y
  {
  }

  /** Putting one element in front of a concatenation regroups freely. */
  lemma ConsThenConcat<T>(h: T, a: seq<T>, b: seq<T>)
    ensures [h] + (a + b) == ([h] + a) + b
  {
  }

  /** The first separator of `x + [sep] + y` is the first of `x`, or the added one. */
  lemma {:induction false} FirstIndexBefore(x: string, sep: char, y: string)
    ensures FirstIndex(x + [sep] + y, sep) == FirstIndex(x, sep)
    decreases |x|
  {
    if x != [] && x[0] != sep {
      assert (x + [sep] + y)[1..] == x[1..] + [sep] + y;
      FirstIndexBefore(x[1..], sep, y);
    }
  }

  /** One step of a split at the first separator. */
  lemma SplitStep(s: string, sep: char, i: nat)
    requires i == FirstIndex(s, sep) && i < |s|
    ensures Split(s, sep) == [s[..i]] + Split(s[i + 1..], sep)
  {
  }

  lemma FirstIndexIs(s: string, sep: char, i: nat)
    requires i <= |s| && (i < |s| ==> s[i] == sep)
    requires forall k :: 0 <= k < i ==> s[k] != sep
    ensures FirstIndex(s, sep) == i
  {
  }

  /** The split of a string without the separator is the string itself. */
  lemma SplitWithout(s: string, sep: char)
    requires sep !in s
    ensures Split(s, sep) == [s]
  {
    assert FirstIndex(s, sep) == |s|;
  }

  /** A string made of white space only. */
  predicate Blank(s: string) {
    forall i :: 0 <= i < |s| ==> IsWhitespace(s[i])
  }

  /** `a.filter(x => x.trim())`: the pieces that are not blank (the test
      is truthy exactly for those, by `TrimEmptyIffBlank`). */
  function NonBlank(lines: seq<string>): (r: seq<string>)
    ensures |r| <= |lines|
  {
    if lines == [] then []
    else if !Blank(lines[0]) then [lines[0]] + NonBlank(lines[1..])
    else NonBlank(lines[1..])
  }

  lemma {:induction false} NonBlankAppend(a: seq<string>, b: seq<string>)
    ensures NonBlank(a + b) == NonBlank(a) + NonBlank(b)
  {
    if a == [] {
      assert a + b == b;
    } else {
      var ab := a + b;
      assert ab[0] == a[0];
      assert ab[1..] == a[1..] + b;
      NonBlankAppend(a[1..], b);
      if !Blank(a[0]) {
        calc {
          NonBlank(ab);
          [a[0]] + NonBlank(a[1..] + b);
          [a[0]] + (NonBlank(a[1..]) + NonBlank(b));
          ([a[0]] + NonBlank(a[1..])) + NonBlank(b);
        }
      } else {
        calc {
          NonBlank(ab);
          NonBlank(a[1..] + b);
        }
      }
    }
  }

  /** `s.replace(pattern, replacement)` with a literal `pattern` and a
      replacement taken literally: the first occurrence is replaced. */
  function ReplaceFirst(s: string, pattern: string, replacement: string): (r: string)
    requires |pattern| > 0
    decreases |s|
  {
    if |s| < |pattern| then s
    else if s[..|pattern|] == pattern then replacement + s[|pattern|..]
    else [s[0]] + ReplaceFirst(s[1..], pattern, replacement)
  }

  /** Replacing the first occurrence leaves a prefix alone when that prefix
      cannot hold the pattern's first character. */
  lemma {:induction false} ReplaceFirstSkipsPrefix(a: string, b: string, pattern: string, replacement: string)
    requires |pattern| > 0 && pattern[0] !in a
    ensures ReplaceFirst(a + b, pattern, replacement) == a + ReplaceFirst(b, pattern, replacement)
  {
    if a != [] {
      assert (a + b)[0] == a[0] != pattern[0];
      if |a + b| >= |pattern| {
        assert (a + b)[..|pattern|][0] == a[0];
      }
      assert (a + b)[1..] == a[1..] + b;
      ReplaceFirstSkipsPrefix(a[1..], b, pattern, replacement);
    } else {
      assert a + b == b;
    }
  }

  /** A string that cannot end an occurrence of the pattern is left alone. */
  lemma {:induction false} ReplaceFirstNoEnd(c: string, pattern: string, replacement: string)
    requires |pattern| > 0 && pattern[|pattern| - 1] !in c
    ensures ReplaceFirst(c, pattern, replacement) == c
  {
    if |c| >= |pattern| {
      assert c[..|pattern|][|pattern| - 1] == c[|pattern| - 1];
      ReplaceFirstNoEnd(c[1..], pattern, replacement);
    }
  }

  /** Replacing the first occurrence leaves a suffix alone when that suffix
      cannot hold the pattern's last character. */
  lemma {:induction false} ReplaceFirstKeepsSuffix(b: string, c: string, pattern: string, replacement: string)
    requires |pattern| > 0 && pattern[|pattern| - 1] !in c
    ensures ReplaceFirst(b + c, pattern, replacement) == ReplaceFirst(b, pattern, replacement) + c
    decreases |b|
  {
    var n := |pattern|;
    var s := b + c;
    if b == [] {
      assert s == c;
      ReplaceFirstNoEnd(c, pattern, replacement);
    } else if |s| >= n && s[..n] == pattern {
      if |b| < n {
        assert false;
      }
      assert b[..n] == s[..n];
      assert s[n..] == b[n..] + c;
    } else {
      assert s[1..] == b[1..] + c;
      if |b| >= n {
        assert b[..n] == s[..n];
      }
      ReplaceFirstKeepsSuffix(b[1..], c, pattern, replacement);
    }
  }

  /** A shift by one character moves every occurrence by one place. */
  lemma OccursShift(s: string, pattern: string, j: nat)
    requires |s| >= 1
    ensures Occurs(s[1..], pattern, j) == Occurs(s, pattern, j + 1)
  {
    if j + 1 + |pattern| <= |s| {
      assert s[1..][j..j + |pattern|] == s[j + 1..j + 1 + |pattern|];
    }
  }

  /** `ReplaceFirst` cuts at the first occurrence: the text before it, the
      replacement, and the text after it. */
  lemma {:induction false} ReplaceFirstAt(s: string, pattern: string, replacement: string, i: nat)
    requires |pattern| > 0 && Occurs(s, pattern, i)
    requires forall j :: 0 <= j < i ==> !Occurs(s, pattern, j)
    ensures ReplaceFirst(s, pattern, replacement) == s[..i] + replacement + s[i + |pattern|..]
    decreases i
  {
    var n := |pattern|;
    if i == 0 {
      assert s[..n] == pattern;
    } else {
      var t := s[1..];
      assert !Occurs(s, pattern, 0);
      assert ReplaceFirst(s, pattern, replacement) == [s[0]] + ReplaceFirst(t, pattern, replacement);
      forall j | 0 <= j < i - 1 ensures !Occurs(t, pattern, j) {
        OccursShift(s, pattern, j);
      }
      OccursShift(s, pattern, i - 1);
      ReplaceFirstAt(t, pattern, replacement, i - 1);
      assert s[..i] == [s[0]] + t[..i - 1];
      assert s[i + n..] == t[i - 1 + n..];
    }
  }

  /** Without an occurrence `ReplaceFirst` changes nothing. */
  lemma {:induction false} ReplaceFirstAbsent(s: string, pattern: string, replacement: string)
    requires |pattern| > 0
    requires forall j :: 0 <= j ==> !Occurs(s, pattern, j)
    ensures ReplaceFirst(s, pattern, replacement) == s
    decreases |s|
  {
    if |s| >= |pattern| {
      assert !Occurs(s, pattern, 0);
      forall j | 0 <= j ensures !Occurs(s[1..], pattern, j) {
        OccursShift(s, pattern, j);
      }
      ReplaceFirstAbsent(s[1..], pattern, replacement);
      assert s == [s[0]] + s[1..];
    }
  }

  /** The text `String.prototype.replace` inserts for a replacement string
      when the pattern is a string: `$$` stands for `$`, `$&` for the matched
      text, `` $` `` for the text before the match and `$'` for the text after
      it; every other character, a lone `$` included, stands for itself. */
  function Substitute(replacement: string, matched: string, before: string, after: string): string
    decreases |replacement|
  {
    if replacement == [] then []
    else if |replacement| >= 2 && replacement[0] == '$' && replacement[1] in "$&`'" then
      var inserted :=
        if replacement[1] == '$' then "$"
        else if replacement[1] == '&' then matched
        else if replacement[1] == '`' then before
        else after;
      inserted + Substitute(replacement[2..], matched, before, after)
    else [replacement[0]] + Substitute(replacement[1..], matched, before, after)
  }

  /** A replacement without `$` is inserted as it is. */
  lemma {:induction false} SubstituteLiteral(replacement: string, matched: string, before: string, after: string)
    requires '$' !in replacement
    ensures Substitute(replacement, matched, before, after) == replacement
    decreases |replacement|
  {
    if replacement != [] {
      SubstituteLiteral(replacement[1..], matched, before, after);
      assert replacement == [replacement[0]] + replacement[1..];
    }
  }

  /** A leading stretch without `$` is inserted as it is. */
  lemma {:induction false} SubstituteLiteralPrefix(u: string, v: string, matched: string, before: string, after: string)
    requires '$' !in u
    ensures Substitute(u + v, matched, before, after) == u + Substitute(v, matched, before, after)
    decreases |u|
  {
    if u != [] {
      assert (u + v)[0] == u[0] && (u + v)[1..] == u[1..] + v;
      SubstituteLiteralPrefix(u[1..], v, matched, before, after);
      assert u == [u[0]] + u[1..];
    } else {
      assert u + v == v;
    }
  }

  /** `s.replace(pattern, replacement)` with a string `pattern`, as the
      language defines it: the first occurrence is replaced and the `$`
      patterns of the replacement are expanded. */
  function ReplaceFirstExpanding(s: string, pattern: string, replacement: string): string
    requires |pattern| > 0
  {
    var i := IndexOf(s, pattern, 0);
    if i < 0 then s else ExpandAt(s, pattern, replacement, i)
  }

  /** The occurrence at `i` replaced by the expanded replacement. */
  function ExpandAt(s: string, pattern: string, replacement: string, i: nat): string
    requires i + |pattern| <= |s|
  {
    s[..i] + Substitute(replacement, pattern, s[..i], s[i + |pattern|..]) + s[i + |pattern|..]
  }

  /** Whatever the replacement inserts, `replace` keeps a prefix that cannot
      hold the pattern's first character and a suffix that cannot hold its
      last one. */
  lemma ExpandingKeepsEnds(s: string, pattern: string, replacement: string, a: string, b: string)
    requires |pattern| > 0 && pattern[0] !in a && pattern[|pattern| - 1] !in b
    requires |a| + |b| <= |s| && s[..|a|] == a && s[|s| - |b|..] == b
    ensures var r := ReplaceFirstExpanding(s, pattern, replacement);
      |a| + |b| <= |r| && r[..|a|] == a && r[|r| - |b|..] == b
  {
    var i := IndexOf(s, pattern, 0);
    if i >= 0 {
      OccurrenceInside(s, pattern, i, a, b);
      ExpandAtKeepsEnds(s, pattern, replacement, i, a, b);
    }
  }

  lemma ExpandAtKeepsEnds(s: string, pattern: string, replacement: string, i: nat, a: string, b: string)
    requires |a| <= i && i + |pattern| <= |s| - |b|
    requires s[..|a|] == a && s[|s| - |b|..] == b
    ensures var r := ExpandAt(s, pattern, replacement, i);
      |a| + |b| <= |r| && r[..|a|] == a && r[|r| - |b|..] == b
  {
    KeepEnds(s, i, i + |pattern|, Substitute(replacement, pattern, s[..i], s[i + |pattern|..]), a, b);
  }

  /** An occurrence of the pattern starts after `a` and ends before `b`. */
  lemma OccurrenceInside(s: string, pattern: string, i: nat, a: string, b: string)
    requires |pattern| > 0 && pattern[0] !in a && pattern[|pattern| - 1] !in b
    requires |a| + |b| <= |s| && s[..|a|] == a && s[|s| - |b|..] == b
    requires Occurs(s, pattern, i)
    ensures |a| <= i && i + |pattern| <= |s| - |b|
  {
    var n := |pattern|;
    assert s[i] == pattern[0] && s[i + n - 1] == pattern[n - 1];
    assert forall j :: 0 <= j < |a| ==> s[j] == a[j];
    assert forall j :: |s| - |b| <= j < |s| ==> s[j] == b[j - (|s| - |b|)];
  }

  /** Cutting out `s[i..j]` and putting anything in its place keeps the
      ends of `s` outside the cut. */
  lemma KeepEnds<T>(s: seq<T>, i: nat, j: nat, inserted: seq<T>, a: seq<T>, b: seq<T>)
    requires |a| <= i <= j <= |s| - |b| && s[..|a|] == a && s[|s| - |b|..] == b
    ensures var r := s[..i] + inserted + s[j..];
      |a| + |b| <= |r| && r[..|a|] == a && r[|r| - |b|..] == b
  {
    var r := s[..i] + inserted + s[j..];
    assert r[..|a|] == s[..|a|];
    assert r[|r| - |b|..] == s[|s| - |b|..];
  }

  /** With no `$` in the replacement, expanding and literal replacement agree. */
  lemma ExpandingWithoutDollar(s: string, pattern: string, replacement: string)
    requires |pattern| > 0 && '$' !in replacement
    ensures ReplaceFirstExpanding(s, pattern, replacement) == ReplaceFirst(s, pattern, replacement)
  {
    if IndexOf(s, pattern, 0) < 0 {
      ExpandingAbsent(s, pattern, replacement);
    } else {
      ExpandingFound(s, pattern, replacement);
    }
  }

  /** Without an occurrence both replacements leave the text alone. */
  lemma ExpandingAbsent(s: string, pattern: string, replacement: string)
    requires |pattern| > 0 && IndexOf(s, pattern, 0) < 0
    ensures ReplaceFirstExpanding(s, pattern, replacement) == s == ReplaceFirst(s, pattern, replacement)
  {
    ReplaceFirstAbsent(s, pattern, replacement);
  }

  /** With an occurrence and no `$`, both replace the first occurrence alike. */
  lemma ExpandingFound(s: string, pattern: string, replacement: string)
    requires |pattern| > 0 && '$' !in replacement && IndexOf(s, pattern, 0) >= 0
    ensures ReplaceFirstExpanding(s, pattern, replacement) == ReplaceFirst(s, pattern, replacement)
  {
    var i := IndexOf(s, pattern, 0);
    var before, after := s[..i], s[i + |pattern|..];
    assert ReplaceFirstExpanding(s, pattern, replacement) == before + Substitute(replacement, pattern, before, after) + after;
    LiteralAt(s, pattern, replacement, i);
  }

  /** At the first occurrence, the expanded replacement without `$` is the
      literal one. */
  lemma LiteralAt(s: string, pattern: string, replacement: string, i: nat)
    requires |pattern| > 0 && '$' !in replacement && Occurs(s, pattern, i)
    requires forall j :: 0 <= j < i ==> !Occurs(s, pattern, j)
    ensures s[..i] + Substitute(replacement, pattern, s[..i], s[i + |pattern|..]) + s[i + |pattern|..]
            == ReplaceFirst(s, pattern, replacement)
  {
    SubstituteLiteral(replacement, pattern, s[..i], s[i + |pattern|..]);
    ReplaceFirstAt(s, pattern, replacement, i);
  }

  function DigitChar(d: nat): (c: char)
    requires d < 10
    ensures IsDigit(c)
  {
    (('0' as int) + d) as char
  }

  /** `String(n)` for a natural number: its decimal digits without leading zeros. */
  function NatToString(n: nat): (r: string)
    ensures |r| >= 1
    ensures forall i :: 0 <= i < |r| ==> IsDigit(r[i])
    ensures n >= 10 ==> r[0] != '0'
  {
    if n < 10 then [DigitChar(n)] else NatToString(n / 10) + [DigitChar(n % 10)]
  }

  /** The value of a string of decimal digits. */
  function DigitsValue(s: string): nat
    requires forall i :: 0 <= i < |s| ==> IsDigit(s[i])
  {
    if s == [] then 0
    else
      assert IsDigit(s[|s| - 1]);
      10 * DigitsValue(s[..|s| - 1]) + (s[|s| - 1] as int - '0' as int)
  }

  /** Reading back the decimal digits gives the number. */
  lemma {:induction false} NatToStringValue(n: nat)
    ensures DigitsValue(NatToString(n)) == n
  {
    var r := NatToString(n);
    if n < 10 {
      assert r[..0] == [];
    } else {
      NatToStringValue(n / 10);
      assert r[..|r| - 1] == NatToString(n / 10);
    }
  }
}

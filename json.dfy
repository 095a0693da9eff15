/** JavaScript values as far as the widget and the relays look at them, and
    the text `JSON.stringify` writes for them. */
module Json {
  import opened Wrappers
  import opened Strings

  /** A JavaScript value: what `JSON.parse` produces, plus `undefined`.
      Numbers are integers. */
  datatype Value =
    | Undefined
    | Null
    | Bool(b: bool)
    | Num(n: int)
    | Str(s: string)
    | Arr(items: seq<Value>)
    | Obj(fields: seq<Field>)

  /** One own property of an object, in insertion order. */
  datatype Field = Field(key: string, value: Value)

  /** The value `if (v)` accepts. */
  predicate Truthy(v: Value) {
    match v
    case Undefined => false
    case Null => false
    case Bool(b) => b
    case Num(n) => n != 0
    case Str(s) => s != []
    case Arr(_) => true
    case Obj(_) => true
  }

  /** `null` and `undefined`, where `?.` stops. */
  predicate Nullish(v: Value) {
    v == Undefined || v == Null
  }

  /** The value of the last field named `key` (the one `JSON.parse` keeps),
      or `undefined`. */
  function Lookup(fields: seq<Field>, key: string): Value
    decreases |fields|
  {
    if fields == [] then Undefined
    else if fields[|fields| - 1].key == key then fields[|fields| - 1].value
    else Lookup(fields[..|fields| - 1], key)
  }

  /** `v.key` for a property name that is not an index nor `length`:
      `None` where the access throws a `TypeError`. */
  function Get(v: Value, key: string): Option<Value> {
    match v
    case Undefined => None
    case Null => None
    case Obj(fields) => Some(Lookup(fields, key))
    case _ => Some(Undefined)
  }

  /** `v?.key`. */
  function GetOpt(v: Value, key: string): Value {
    if Nullish(v) then Undefined
    else match Get(v, key) case Some(x) => x case None => Undefined
  }

  /** `v[i]`: `None` where the access throws a `TypeError`. */
  function At(v: Value, i: nat): Option<Value> {
    match v
    case Undefined => None
    case Null => None
    case Arr(items) => Some(if i < |items| then items[i] else Undefined)
    case Str(s) => Some(if i < |s| then Str([s[i]]) else Undefined)
    case Obj(fields) => Some(Lookup(fields, NatToString(i)))
    case _ => Some(Undefined)
  }

  /** `v.key = x`: an existing property keeps its place, a new one is added
      last. */
  function SetField(fields: seq<Field>, key: string, x: Value): (r: seq<Field>)
    ensures Lookup(r, key) == x
    ensures forall k :: k != key ==> Lookup(r, k) == Lookup(fields, k)
  {
    if exists i :: 0 <= i < |fields| && fields[i].key == key then
      LookupReplaced(fields, key, x);
      LookupUnaffected(fields, key, x);
      ReplaceKey(fields, key, x)
    else
      LookupAppend(fields, key, x);
      fields + [Field(key, x)]
  }

  function ReplaceKey(fields: seq<Field>, key: string, x: Value): (r: seq<Field>)
    ensures |r| == |fields|
  {
    seq(|fields|, i requires 0 <= i < |fields| => if fields[i].key == key then Field(key, x) else fields[i])
  }

  lemma ReplaceKeyInit(fields: seq<Field>, key: string, x: Value)
    requires fields != []
    ensures ReplaceKey(fields, key, x)[..|fields| - 1] == ReplaceKey(fields[..|fields| - 1], key, x)
  {
  }

  lemma {:induction false} LookupReplaced(fields: seq<Field>, key: string, x: Value)
    requires exists i :: 0 <= i < |fields| && fields[i].key == key
    ensures Lookup(ReplaceKey(fields, key, x), key) == x
    decreases |fields|
  {
    var n := |fields|;
    var r := ReplaceKey(fields, key, x);
    if fields[n - 1].key != key {
      var i :| 0 <= i < n && fields[i].key == key;
      assert fields[..n - 1][i].key == key;
      assert r[n - 1] == fields[n - 1];
      ReplaceKeyInit(fields, key, x);
      LookupReplaced(fields[..n - 1], key, x);
      LookupBeforeLast(r, key);
    } else {
      assert r[n - 1] == Field(key, x);
    }
  }

  /** Past a last field with another key, the lookup goes on in front of it. */
  lemma LookupBeforeLast(fields: seq<Field>, key: string)
    requires fields != [] && fields[|fields| - 1].key != key
    ensures Lookup(fields, key) == Lookup(fields[..|fields| - 1], key)
  {
  }

  lemma {:induction false} LookupUnaffected(fields: seq<Field>, key: string, x: Value)
    ensures forall k :: k != key ==> Lookup(ReplaceKey(fields, key, x), k) == Lookup(fields, k)
    decreases |fields|
  {
    if fields != [] {
      ReplaceKeyInit(fields, key, x);
      LookupUnaffected(fields[..|fields| - 1], key, x);
    }
  }

  lemma LookupAppend(fields: seq<Field>, key: string, x: Value)
    ensures Lookup(fields + [Field(key, x)], key) == x
    ensures forall k :: k != key ==> Lookup(fields + [Field(key, x)], k) == Lookup(fields, k)
  {
    assert (fields + [Field(key, x)])[..|fields|] == fields;
  }

  // ---------------------------------------------------------------------
  // String conversion: `'' + v`
  // ---------------------------------------------------------------------

  /** `String(n)` for an integer. */
  function IntToString(n: int): (r: string)
    ensures r != []
  {
    if n < 0 then "-" + NatToString(-n) else NatToString(n)
  }

  /** Converting `v` to a string throws a `TypeError`. An object that
      `JSON.parse` gave an own `toString` key has no callable `toString`,
      and its `valueOf` gives back the object itself; an array throws when
      one of its elements does, since `join` converts each of them. */
  predicate ConversionThrows(v: Value)
    decreases v
  {
    match v
    case Obj(fields) => exists k :: 0 <= k < |fields| && fields[k].key == "toString"
    case Arr(items) => exists k :: 0 <= k < |items| && ConversionThrows(items[k])
    case _ => false
  }

  /** The string `+` appends for `v` (`String(v)`) when the conversion does
      not throw (`ConversionThrows`); an array joins its elements with `,`,
      writing `null` and `undefined` as nothing. */
  function ToJsString(v: Value): string
    decreases v
  {
    match v
    case Undefined => "undefined"
    case Null => "null"
    case Bool(b) => if b then "true" else "false"
    case Num(n) => IntToString(n)
    case Str(s) => s
    case Arr(items) => JoinItems(items)
    case Obj(_) => "[object Object]"
  }

  function JoinItems(items: seq<Value>): string
    decreases items
  {
    if items == [] then []
    else
      var first := if Nullish(items[0]) then [] else ToJsString(items[0]);
      if |items| == 1 then first else first + "," + JoinItems(items[1..])
  }

  // ---------------------------------------------------------------------
  // JSON.stringify
  // ---------------------------------------------------------------------

  function HexDigit(d: nat): (c: char)
    requires d < 16
  {
    if d < 10 then ('0' as int + d) as char else ('a' as int + d - 10) as char
  }

  /** How `JSON.stringify` writes one character inside a string literal. */
  function EscapeJsonChar(c: char): (r: string)
    ensures forall i :: 0 <= i < |r| ==> r[i] >= ' '
    ensures r != [] && (r[0] == '\\' || r == [c])
  {
    if c == '"' then "\\\""
    else if c == '\\' then "\\\\"
    else if c == '\U{8}' then "\\b"
    else if c == '\t' then "\\t"
    else if c == '\n' then "\\n"
    else if c == '\U{C}' then "\\f"
    else if c == '\r' then "\\r"
    else if c < ' ' then "\\u00" + [HexDigit(c as int / 16), HexDigit(c as int % 16)]
    else [c]
  }

  function EscapeJson(s: string): (r: string)
    ensures forall i :: 0 <= i < |r| ==> r[i] >= ' '
  {
    if s == [] then [] else EscapeJsonChar(s[0]) + EscapeJson(s[1..])
  }

  /** `JSON.stringify(s)` for a string. */
  function Quote(s: string): string {
    "\"" + EscapeJson(s) + "\""
  }

  /** `JSON.stringify(v)`; `undefined` is written `null`, as inside an
      array, and object fields holding `undefined` are skipped. */
  function Stringify(v: Value): string
    decreases v
  {
    match v
    case Undefined => "null"
    case Null => "null"
    case Bool(b) => if b then "true" else "false"
    case Num(n) => IntToString(n)
    case Str(s) => Quote(s)
    case Arr(items) => "[" + Join(StringifyItems(items), ",") + "]"
    case Obj(fields) => "{" + Join(StringifyFields(fields), ",") + "}"
  }

  function StringifyItems(items: seq<Value>): (r: seq<string>)
    ensures |r| == |items|
    decreases items
  {
    if items == [] then [] else [Stringify(items[0])] + StringifyItems(items[1..])
  }

  function StringifyFields(fields: seq<Field>): seq<string>
    decreases fields
  {
    if fields == [] then []
    else
      var rest := StringifyFields(fields[1..]);
      if fields[0].value == Undefined then rest
      else [Quote(fields[0].key) + ":" + Stringify(fields[0].value)] + rest
  }

  /** A character `JSON.stringify` writes as itself inside a string. */
  predicate Plain(c: char) {
    c >= ' ' && c != '"' && c != '\\'
  }

  lemma {:induction false} EscapePlain(s: string)
    requires forall i :: 0 <= i < |s| ==> Plain(s[i])
    ensures EscapeJson(s) == s
  {
    if s != [] {
      EscapePlain(s[1..]);
      assert [s[0]] + s[1..] == s;
    }
  }

  /** The text of one defined field. */
  function Member(f: Field): string {
    Quote(f.key) + ":" + Stringify(f.value)
  }

  lemma ObjWritten(fields: seq<Field>)
    ensures Stringify(Obj(fields)) == "{" + Join(StringifyFields(fields), ",") + "}"
  {
  }

  lemma FieldsWritten(f: Field, rest: seq<Field>)
    requires f.value != Undefined
    ensures StringifyFields([f] + rest) == [Member(f)] + StringifyFields(rest)
  {
    assert ([f] + rest)[0] == f && ([f] + rest)[1..] == rest;
  }

  lemma JoinTwo(a: string, b: string, sep: string)
    ensures Join([a, b], sep) == a + sep + b
  {
    assert [a, b][1..] == [b];
  }

  /** Two defined fields are written in order. */
  lemma TwoFieldsWritten(f: Field, g: Field)
    requires f.value != Undefined && g.value != Undefined
    ensures Stringify(Obj([f, g])) == "{" + Member(f) + "," + Member(g) + "}"
  {
    FieldsWritten(g, []);
    assert [g] + [] == [g];
    FieldsWritten(f, [g]);
    assert [f] + [g] == [f, g];
    assert [Member(f)] + [Member(g)] == [Member(f), Member(g)];
    JoinTwo(Member(f), Member(g), ",");
    ObjWritten([f, g]);
  }

  // ---------------------------------------------------------------------
  // Reading a JSON string literal back
  // ---------------------------------------------------------------------

  function HexValue(c: char): (d: int) {
    if '0' <= c <= '9' then c as int - '0' as int
    else if 'a' <= c <= 'f' then c as int - 'a' as int + 10
    else if 'A' <= c <= 'F' then c as int - 'A' as int + 10
    else -1
  }

  function Prepend(c: char, rest: Option<string>): Option<string> {
    match rest
    case None => None
    case Some(r) => Some([c] + r)
  }

  /** The character a two-character escape stands for. */
  function ShortEscape(e: char): Option<char> {
    if e == '"' then Some('"')
    else if e == '\\' then Some('\\')
    else if e == '/' then Some('/')
    else if e == 'b' then Some('\U{8}')
    else if e == 'f' then Some('\U{C}')
    else if e == 'n' then Some('\n')
    else if e == 'r' then Some('\r')
    else if e == 't' then Some('\t')
    else None
  }

  /** The characters of the inside of a JSON string literal, or `None` when
      it is not well formed. A `\u` escape naming half of a surrogate pair
      is refused. */
  function Unescape(t: string): Option<string>
    decreases |t|
  {
    if t == [] then Some([])
    else if t[0] == '"' || t[0] < ' ' then None
    else if t[0] != '\\' then Prepend(t[0], Unescape(t[1..]))
    else if |t| < 2 then None
    else if ShortEscape(t[1]).Some? then Prepend(ShortEscape(t[1]).value, Unescape(t[2..]))
    else if t[1] == 'u' && |t| >= 6
      && HexValue(t[2]) >= 0 && HexValue(t[3]) >= 0 && HexValue(t[4]) >= 0 && HexValue(t[5]) >= 0 then
      var code := ((HexValue(t[2]) * 16 + HexValue(t[3])) * 16 + HexValue(t[4])) * 16 + HexValue(t[5]);
      if 0xD800 <= code < 0xE000 then None else Prepend(code as char, Unescape(t[6..]))
    else None
  }

  /** A JSON string literal read back, or `None`. */
  function Unquote(t: string): Option<string> {
    if |t| >= 2 && t[0] == '"' && t[|t| - 1] == '"' then Unescape(t[1..|t| - 1]) else None
  }

  lemma HexDigitValue(d: nat)
    requires d < 16
    ensures HexValue(HexDigit(d)) == d
  {
  }

  /** Reading back one escaped character. */
  lemma UnescapeChar(c: char, rest: string)
    ensures Unescape(EscapeJsonChar(c) + rest) == Prepend(c, Unescape(rest))
  {
    var e := EscapeJsonChar(c);
    var t := e + rest;
    if e == [c] {
      assert t[1..] == rest;
    } else if c < ' ' && c != '\U{8}' && c != '\t' && c != '\n' && c != '\U{C}' && c != '\r' {
      var hi := c as int / 16;
      var lo := c as int % 16;
      HexDigitValue(hi);
      HexDigitValue(lo);
      assert t[1] == 'u' && t[2] == '0' && t[3] == '0' && t[4] == HexDigit(hi) && t[5] == HexDigit(lo);
      assert t[6..] == rest;
    } else {
      assert t[2..] == rest;
    }
  }

  /** Escaping is undone by reading back. */
  lemma {:induction false} UnescapeEscape(s: string)
    ensures Unescape(EscapeJson(s)) == Some(s)
  {
    if s != [] {
      UnescapeChar(s[0], EscapeJson(s[1..]));
      UnescapeEscape(s[1..]);
      assert [s[0]] + s[1..] == s;
    }
  }

  /** `JSON.parse(JSON.stringify(s)) === s` for a string. */
  lemma QuoteRoundTrip(s: string)
    ensures Unquote(Quote(s)) == Some(s)
  {
    var q := Quote(s);
    assert q[1..|q| - 1] == EscapeJson(s);
    UnescapeEscape(s);
  }

  /** No character a string literal is written with is a control character,
      so it never holds a line break. */
  lemma QuoteOneLine(s: string)
    ensures forall i :: 0 <= i < |Quote(s)| ==> Quote(s)[i] >= ' '
  {
    var e := EscapeJson(s);
    assert forall i :: 0 <= i < |e| ==> e[i] >= ' ';
  }

  /** Text without control characters: a line break cannot occur in it. */
  predicate Printable(s: string) {
    forall i :: 0 <= i < |s| ==> s[i] >= ' '
  }

  lemma {:induction false} JoinPrintable(parts: seq<string>, sep: string)
    requires Printable(sep) && forall k :: 0 <= k < |parts| ==> Printable(parts[k])
    ensures Printable(Join(parts, sep))
    decreases |parts|
  {
    if |parts| > 1 {
      JoinPrintable(parts[1..], sep);
    }
  }

  lemma QuotePrintable(s: string)
    ensures Printable(Quote(s))
  {
    QuoteOneLine(s);
  }

  lemma IntToStringPrintable(n: int)
    ensures Printable(IntToString(n))
  {
    var r := if n < 0 then NatToString(-n) else NatToString(n);
    assert forall i :: 0 <= i < |r| ==> IsDigit(r[i]);
  }

  /** `JSON.stringify` writes every value on one line. */
  lemma {:induction false} StringifyPrintable(v: Value)
    ensures Printable(Stringify(v))
    decreases v
  {
    match v
    case Undefined =>
    case Null =>
    case Bool(b) =>
    case Num(n) => IntToStringPrintable(n);
    case Str(s) => QuotePrintable(s);
    case Arr(items) =>
      ItemsPrintable(items);
      JoinPrintable(StringifyItems(items), ",");
    case Obj(fields) =>
      FieldsPrintable(fields);
      JoinPrintable(StringifyFields(fields), ",");
  }

  lemma {:induction false} ItemsPrintable(items: seq<Value>)
    ensures forall k :: 0 <= k < |StringifyItems(items)| ==> Printable(StringifyItems(items)[k])
    decreases items
  {
    if items != [] {
      StringifyPrintable(items[0]);
      ItemsPrintable(items[1..]);
    }
  }

  lemma {:induction false} FieldsPrintable(fields: seq<Field>)
    ensures forall k :: 0 <= k < |StringifyFields(fields)| ==> Printable(StringifyFields(fields)[k])
    decreases fields
  {
    if fields != [] {
      FieldsPrintable(fields[1..]);
      if fields[0].value != Undefined {
        QuotePrintable(fields[0].key);
        StringifyPrintable(fields[0].value);
      }
    }
  }
}

/** The two encodings the relays write about uploaded files: the base64
    text of an image and a size in kilobytes with two decimals. */
module Format {
  import opened Wrappers
  import opened Strings
  import opened Api

  // ---------------------------------------------------------------------
  // buffer.toString('base64')
  // ---------------------------------------------------------------------

  /** The base64 character for a six-bit value. */
  function Sextet(d: nat): (c: char)
    requires d < 64
  {
    if d < 26 then ('A' as int + d) as char
    else if d < 52 then ('a' as int + d - 26) as char
    else if d < 62 then ('0' as int + d - 52) as char
    else if d == 62 then '+'
    else '/'
  }

  /** The six-bit value of a base64 character, or -1. */
  function SextetValue(c: char): int {
    if 'A' <= c <= 'Z' then c as int - 'A' as int
    else if 'a' <= c <= 'z' then c as int - 'a' as int + 26
    else if '0' <= c <= '9' then c as int - '0' as int + 52
    else if c == '+' then 62
    else if c == '/' then 63
    else -1
  }

  /** The four characters for three bytes. */
  function Quad(b0: byte, b1: byte, b2: byte): (r: string)
    ensures |r| == 4
  {
    var x, y, z := b0 as int, b1 as int, b2 as int;
    [Sextet(x / 4), Sextet(x % 4 * 16 + y / 16), Sextet(y % 16 * 4 + z / 64), Sextet(z % 64)]
  }

  /** The standard base64 text of a byte string, padded with `=`. */
  function Base64(bytes: seq<byte>): (r: string)
    ensures |r| == 4 * ((|bytes| + 2) / 3)
    decreases |bytes|
  {
    if |bytes| == 0 then []
    else
      var b0 := bytes[0] as int;
      if |bytes| == 1 then [Sextet(b0 / 4), Sextet(b0 % 4 * 16), '=', '=']
      else
        var b1 := bytes[1] as int;
        if |bytes| == 2 then [Sextet(b0 / 4), Sextet(b0 % 4 * 16 + b1 / 16), Sextet(b1 % 16 * 4), '=']
        else Quad(bytes[0], bytes[1], bytes[2]) + Base64(bytes[3..])
  }

  function Byte(n: int): Option<byte> {
    if 0 <= n < 256 then Some(n as byte) else None
  }

  /** Reading base64 text back; `None` for text that is not well formed. */
  function Base64Decode(s: string): Option<seq<byte>>
    decreases |s|
  {
    if s == [] then Some([])
    else if |s| < 4 then None
    else
      var v0 := SextetValue(s[0]);
      var v1 := SextetValue(s[1]);
      if v0 < 0 || v1 < 0 then None
      else if s[2..4] == "==" then
        if |s| == 4 && v1 % 16 == 0 then Some([(v0 * 4 + v1 / 16) as byte]) else None
      else
        var v2 := SextetValue(s[2]);
        if v2 < 0 then None
        else if s[3] == '=' then
          if |s| == 4 && v2 % 4 == 0 then Some([(v0 * 4 + v1 / 16) as byte, (v1 % 16 * 16 + v2 / 4) as byte])
          else None
        else
          var v3 := SextetValue(s[3]);
          if v3 < 0 then None
          else match Base64Decode(s[4..])
            case None => None
            case Some(rest) =>
              Some([(v0 * 4 + v1 / 16) as byte, (v1 % 16 * 16 + v2 / 4) as byte, (v2 % 4 * 64 + v3) as byte] + rest)
  }

  lemma SextetRoundTrip(d: nat)
    requires d < 64
    ensures SextetValue(Sextet(d)) == d
  {
  }

  /** One group of three bytes read back. */
  lemma GroupRoundTrip(b0: int, b1: int, b2: int)
    requires 0 <= b0 < 256 && 0 <= b1 < 256 && 0 <= b2 < 256
    ensures b0 / 4 * 4 + (b0 % 4 * 16 + b1 / 16) / 16 == b0
    ensures (b0 % 4 * 16 + b1 / 16) % 16 * 16 + (b1 % 16 * 4 + b2 / 64) / 4 == b1
    ensures (b1 % 16 * 4 + b2 / 64) % 4 * 64 + b2 % 64 == b2
  {
  }

  /** A full group is read back before the rest. */
  lemma QuadThenRest(b0: byte, b1: byte, b2: byte, t: string)
    ensures Base64Decode(Quad(b0, b1, b2) + t)
      == match Base64Decode(t) case None => None case Some(rest) => Some([b0, b1, b2] + rest)
  {
    var x, y, z := b0 as int, b1 as int, b2 as int;
    var s := Quad(b0, b1, b2) + t;
    GroupRoundTrip(x, y, z);
    SextetRoundTrip(x / 4);
    SextetRoundTrip(x % 4 * 16 + y / 16);
    SextetRoundTrip(y % 16 * 4 + z / 64);
    SextetRoundTrip(z % 64);
    assert s[2] != '=' && s[3] != '=';
    assert s[2..4] != "==";
    assert s[4..] == t;
  }

  /** A last group of one byte read back. */
  lemma OneByteRoundTrip(b0: byte)
    ensures Base64Decode(Base64([b0])) == Some([b0])
  {
    var x := b0 as int;
    SextetRoundTrip(x / 4);
    SextetRoundTrip(x % 4 * 16);
    var s := Base64([b0]);
    assert s[2..4] == "==";
  }

  /** A last group of two bytes read back. */
  lemma TwoBytesRoundTrip(b0: byte, b1: byte)
    ensures Base64Decode(Base64([b0, b1])) == Some([b0, b1])
  {
    var x, y := b0 as int, b1 as int;
    GroupRoundTrip(x, y, 0);
    SextetRoundTrip(x / 4);
    SextetRoundTrip(x % 4 * 16 + y / 16);
    SextetRoundTrip(y % 16 * 4);
    var s := Base64([b0, b1]);
    assert s[2] != '=';
    assert s[2..4] != "==";
  }

  lemma Base64Step(bytes: seq<byte>)
    requires |bytes| >= 3
    ensures Base64(bytes) == Quad(bytes[0], bytes[1], bytes[2]) + Base64(bytes[3..])
  {
  }

  /** Decoding undoes encoding. */
  lemma {:induction false} Base64RoundTrip(bytes: seq<byte>)
    ensures Base64Decode(Base64(bytes)) == Some(bytes)
    decreases |bytes|
  {
    if |bytes| == 1 {
      OneByteRoundTrip(bytes[0]);
      assert [bytes[0]] == bytes;
    } else if |bytes| == 2 {
      TwoBytesRoundTrip(bytes[0], bytes[1]);
      assert [bytes[0], bytes[1]] == bytes;
    } else if |bytes| >= 3 {
      Base64RoundTrip(bytes[3..]);
      GroupThenRest(bytes, bytes[3..], Base64(bytes[3..]));
    }
  }

  /** A group of three bytes in front of a rest that round-trips. */
  lemma GroupThenRest(bytes: seq<byte>, rest: seq<byte>, code: string)
    requires |bytes| >= 3 && rest == bytes[3..] && code == Base64(rest)
    requires Base64Decode(code) == Some(rest)
    ensures Base64Decode(Base64(bytes)) == Some(bytes)
  {
    Base64Step(bytes);
    QuadThenRest(bytes[0], bytes[1], bytes[2], code);
    FirstThree(bytes);
  }

  lemma FirstThree<T>(s: seq<T>)
    requires |s| >= 3
    ensures [s[0], s[1], s[2]] + s[3..] == s
  {
  }

  // ---------------------------------------------------------------------
  // (size / 1024).toFixed(2)
  // ---------------------------------------------------------------------

  /** The hundredths `toFixed(2)` rounds `size / 1024` to: the nearest
      integer to `100 * size / 1024`, the larger one on a tie. The quotient
      is exact in double precision for every size an upload can have. */
  function Hundredths(size: nat): nat {
    (100 * size + 512) / 1024
  }

  /** `Hundredths` is the nearest hundredth, the larger on a tie. */
  lemma HundredthsNearest(size: nat, m: int)
    ensures -512 < 1024 * Hundredths(size) - 100 * size <= 512
    ensures Abs(1024 * Hundredths(size) - 100 * size) <= Abs(1024 * m - 100 * size)
    ensures Abs(1024 * Hundredths(size) - 100 * size) == Abs(1024 * m - 100 * size) ==> m <= Hundredths(size)
  {
    var n := Hundredths(size);
    var r := (100 * size + 512) % 1024;
    assert 100 * size + 512 == 1024 * n + r;
    var e := 1024 * n - 100 * size;
    assert e == 512 - r;
    if m > n {
      assert 1024 * m - 100 * size >= e + 1024;
    } else if m < n {
      assert 1024 * m - 100 * size <= e - 1024;
    }
  }

  function Abs(x: int): nat {
    if x < 0 then -x else x
  }

  /** The text `toFixed(2)` writes for `size / 1024`. */
  function Kilobytes(size: nat): string {
    var n := Hundredths(size);
    NatToString(n / 100) + "." + [DigitChar(n % 100 / 10), DigitChar(n % 10)]
  }

  lemma TwoDigitsValue(x: nat, y: nat, d: string)
    requires x < 10 && y < 10 && d == [DigitChar(x), DigitChar(y)]
    ensures DigitsValue(d) == 10 * x + y
  {
    assert d[..1] == [DigitChar(x)];
    assert d[..1][..0] == [];
    assert DigitsValue(d[..1]) == x;
  }

  /** The text is digits, a dot and two more digits, and it reads back as
      the hundredths it stands for. */
  lemma KilobytesValue(size: nat, k: string)
    requires k == Kilobytes(size)
    ensures |k| >= 4 && k[|k| - 3] == '.'
    ensures forall i :: 0 <= i < |k| && i != |k| - 3 ==> IsDigit(k[i])
    ensures DigitsValue(k[..|k| - 3]) * 100 + DigitsValue(k[|k| - 2..]) == Hundredths(size)
  {
    var n := Hundredths(size);
    var w := NatToString(n / 100);
    var d := [DigitChar(n % 100 / 10), DigitChar(n % 10)];
    assert k == w + "." + d;
    assert k[..|k| - 3] == w;
    assert k[|k| - 2..] == d;
    NatToStringValue(n / 100);
    TwoDigitsValue(n % 100 / 10, n % 10, d);
  }
}

/** Base64 (section 4 of RFC 4648) as Node's Buffer writes and reads it. */
module Base64 {
  type Byte = n: int | 0 <= n < 256

  /** A-Z, a-z, 0-9, '+' and '/', in that order. */
  function Digit(n: int): char
    requires 0 <= n < 64
  {
    if n < 26 then ('A' as int + n) as char
    else if n < 52 then ('a' as int + n - 26) as char
    else if n < 62 then ('0' as int + n - 52) as char
    else if n == 62 then '+'
    else '/'
  }

  /** Buffer.from reads the URL-safe alphabet too; every other character has no value and is skipped. */
  function DigitValue(c: char): (v: int)
    ensures -1 <= v < 64
  {
    if 'A' <= c <= 'Z' then c as int - 'A' as int
    else if 'a' <= c <= 'z' then c as int - 'a' as int + 26
    else if '0' <= c <= '9' then c as int - '0' as int + 52
    else if c == '+' || c == '-' then 62
    else if c == '/' || c == '_' then 63
    else -1
  }

  /** Buffer.toString("base64"): three bytes to four digits, the last group padded with '='. */
  function Encode(b: seq<Byte>): string {
    if |b| == 0 then ""
    else if |b| == 1 then [Digit(b[0] / 4), Digit(b[0] % 4 * 16), '=', '=']
    else if |b| == 2 then [Digit(b[0] / 4), Digit(b[0] % 4 * 16 + b[1] / 16), Digit(b[1] % 16 * 4), '=']
    else [Digit(b[0] / 4), Digit(b[0] % 4 * 16 + b[1] / 16), Digit(b[1] % 16 * 4 + b[2] / 64), Digit(b[2] % 64)] + Encode(b[3..])
  }

  /** The digits of a text, in order; padding and foreign characters are skipped. */
  function Digits(s: string): (d: seq<int>)
    ensures forall i :: 0 <= i < |d| ==> IsDigit(d[i])
  {
    if s == "" then []
    else if DigitValue(s[0]) < 0 then Digits(s[1..])
    else [DigitValue(s[0])] + Digits(s[1..])
  }

  predicate IsDigit(d: int) {
    0 <= d < 64
  }

  /** The three bytes that four digits make, each from two neighbours. */
  function Byte1(w: int, x: int): Byte
    requires IsDigit(w) && IsDigit(x)
  {
    w * 4 + x / 16
  }

  function Byte2(x: int, y: int): Byte
    requires IsDigit(x) && IsDigit(y)
  {
    x % 16 * 16 + y / 4
  }

  function Byte3(y: int, z: int): Byte
    requires IsDigit(y) && IsDigit(z)
  {
    y % 4 * 64 + z
  }

  /** Four digits to three bytes; a last group of two or three digits gives one or two bytes. */
  function Pack(d: seq<int>): seq<Byte>
    requires forall i :: 0 <= i < |d| ==> IsDigit(d[i])
  {
    if |d| < 2 then []
    else if |d| == 2 then [Byte1(d[0], d[1])]
    else if |d| == 3 then [Byte1(d[0], d[1]), Byte2(d[1], d[2])]
    else [Byte1(d[0], d[1]), Byte2(d[1], d[2]), Byte3(d[2], d[3])] + Pack(d[4..])
  }

  /** Buffer.from(s, "base64") */
  function Decode(s: string): seq<Byte> {
    Pack(Digits(s))
  }

  lemma DigitRoundTrip(n: int)
    requires 0 <= n < 64
    ensures DigitValue(Digit(n)) == n
    ensures 0x20 < Digit(n) as int < 0x7F
  {
  }

  /** The six-bit groups of a byte sequence, the last one filled up with zero bits. */
  function Sextets(b: seq<Byte>): (d: seq<int>)
    ensures forall i :: 0 <= i < |d| ==> IsDigit(d[i])
  {
    if |b| == 0 then []
    else if |b| == 1 then [b[0] / 4, b[0] % 4 * 16]
    else if |b| == 2 then [b[0] / 4, b[0] % 4 * 16 + b[1] / 16, b[1] % 16 * 4]
    else [b[0] / 4, b[0] % 4 * 16 + b[1] / 16, b[1] % 16 * 4 + b[2] / 64, b[2] % 64] + Sextets(b[3..])
  }

  lemma PackGroup(x: Byte, y: Byte, z: Byte)
    ensures Byte1(x / 4, x % 4 * 16 + y / 16) == x
    ensures Byte2(x % 4 * 16 + y / 16, y % 16 * 4 + z / 64) == y
    ensures Byte3(y % 16 * 4 + z / 64, z % 64) == z
  {
  }

  lemma {:induction false} PackSextets(b: seq<Byte>)
    ensures Pack(Sextets(b)) == b
  {
    hide Byte1, Byte2, Byte3;
    if |b| == 0 {
    } else if |b| == 1 {
      PackGroup(b[0], 0, 0);
    } else if |b| == 2 {
      PackGroup(b[0], b[1], 0);
    } else {
      PackGroup(b[0], b[1], b[2]);
      var d := Sextets(b);
      assert d[4..] == Sextets(b[3..]);
      PackSextets(b[3..]);
      assert b == [b[0], b[1], b[2]] + b[3..];
    }
  }

  lemma {:induction false} DigitsOfEncode(b: seq<Byte>)
    ensures Digits(Encode(b)) == Sextets(b)
  {
    if |b| == 0 {
    } else if |b| == 1 {
      DigitsOfTwo(b[0] / 4, b[0] % 4 * 16, "==");
      assert Encode(b) == [Digit(b[0] / 4), Digit(b[0] % 4 * 16)] + "==";
      assert Digits("==") == [] by { assert "=="[1..] == "="; }
    } else if |b| == 2 {
      var x, y, z := b[0] / 4, b[0] % 4 * 16 + b[1] / 16, b[1] % 16 * 4;
      DigitsOfTwo(x, y, [Digit(z), '=']);
      assert Encode(b) == [Digit(x), Digit(y)] + [Digit(z), '='];
      DigitRoundTrip(z);
      assert [Digit(z), '='][1..] == "=";
    } else {
      DigitsOfEncode(b[3..]);
      DigitsOfFour(b[0] / 4, b[0] % 4 * 16 + b[1] / 16, b[1] % 16 * 4 + b[2] / 64, b[2] % 64, Encode(b[3..]));
    }
  }

  lemma DigitsOfFour(w: int, x: int, y: int, z: int, rest: string)
    requires 0 <= w < 64 && 0 <= x < 64 && 0 <= y < 64 && 0 <= z < 64
    ensures Digits([Digit(w), Digit(x), Digit(y), Digit(z)] + rest) == [w, x, y, z] + Digits(rest)
  {
    DigitsOfTwo(w, x, [Digit(y), Digit(z)] + rest);
    DigitsOfTwo(y, z, rest);
    hide Digits, Digit;
    assert [Digit(w), Digit(x), Digit(y), Digit(z)] + rest == [Digit(w), Digit(x)] + ([Digit(y), Digit(z)] + rest);
  }

  /** Decoding undoes encoding, for every byte sequence and every padding. */
  lemma DecodeEncode(b: seq<Byte>)
    ensures Decode(Encode(b)) == b
  {
    DigitsOfEncode(b);
    PackSextets(b);
  }

  lemma DigitsOfTwo(x: int, y: int, rest: string)
    requires 0 <= x < 64 && 0 <= y < 64
    ensures Digits([Digit(x), Digit(y)] + rest) == [x, y] + Digits(rest)
  {
    DigitRoundTrip(x);
    DigitRoundTrip(y);
    var s := [Digit(x), Digit(y)] + rest;
    assert s[1..] == [Digit(y)] + rest;
    assert s[1..][1..] == rest;
  }

  /** Three bytes take four characters, the last group included: thirty-two bytes take forty-four. */
  lemma {:induction false} EncodedLength(b: seq<Byte>)
    ensures |Encode(b)| == (|b| + 2) / 3 * 4
  {
    if |b| > 2 {
      EncodedLength(b[3..]);
      var n := |b| - 3;
      assert |Encode(b)| == 4 + (n + 2) / 3 * 4;
      assert (n + 3 + 2) / 3 == (n + 2) / 3 + 1;
    }
  }

  lemma {:induction false} EncodedIsPlain(b: seq<Byte>)
    ensures forall c :: c in Encode(b) ==> 0x20 < c as int < 0x7F
  {
    if |b| > 2 {
      EncodedIsPlain(b[3..]);
    }
    forall n | 0 <= n < 64 ensures 0x20 < Digit(n) as int < 0x7F {}
  }
}

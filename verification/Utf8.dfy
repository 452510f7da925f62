/** The streaming UTF-8 decoder of TextDecoder (section 8.1.1 of the WHATWG Encoding Standard). */
module Utf8 {
  import opened Base64

  const REPLACEMENT: char := '\U{FFFD}'
  const BYTE_ORDER_MARK: char := '\U{FEFF}'

  /**
   A decoder between two bytes: `needed` continuation bytes are still to come for the scalar value
   whose leading bits are `bits`, the next one within lower..upper. `begun` is false until the first
   character, which is dropped when it is a byte order mark.
   */
  datatype Decoder = Decoder(needed: nat, bits: int, lower: int, upper: int, begun: bool)

  const FRESH := Decoder(0, 0, 0x80, 0xBF, false)

  function Scalar(n: int): char {
    if 0 <= n < 0xD800 || 0xE000 <= n < 0x11_0000 then n as char else REPLACEMENT
  }

  function Idle(d: Decoder): Decoder {
    Decoder(0, 0, 0x80, 0xBF, d.begun)
  }

  /** One more character of output. */
  function Emit(d: Decoder, c: char): (Decoder, string) {
    if !d.begun && c == BYTE_ORDER_MARK then (Idle(d).(begun := true), "") else (Idle(d).(begun := true), [c])
  }

  /** A byte where a character may begin. */
  function Lead(d: Decoder, b: Byte): (Decoder, string)
  {
    if b < 0x80 then Emit(d, b as char)
    else if 0xC2 <= b <= 0xDF then (Decoder(1, b - 0xC0, 0x80, 0xBF, d.begun), "")
    else if 0xE0 <= b <= 0xEF then
      (Decoder(2, b - 0xE0, if b == 0xE0 then 0xA0 else 0x80, if b == 0xED then 0x9F else 0xBF, d.begun), "")
    else if 0xF0 <= b <= 0xF4 then
      (Decoder(3, b - 0xF0, if b == 0xF0 then 0x90 else 0x80, if b == 0xF4 then 0x8F else 0xBF, d.begun), "")
    else Emit(d, REPLACEMENT)
  }

  function Step(d: Decoder, b: Byte): (Decoder, string) {
    if d.needed == 0 then Lead(d, b)
    else if b < d.lower || d.upper < b then
      // the broken character gives one replacement, and the byte is read again
      var (d1, out) := Emit(d, REPLACEMENT);
      var (d2, more) := Lead(d1, b);
      (d2, out + more)
    else
      var bits := d.bits * 64 + (b - 0x80);
      if d.needed == 1 then Emit(d, Scalar(bits)) else (Decoder(d.needed - 1, bits, 0x80, 0xBF, d.begun), "")
  }

  /** decode(bytes, { stream: true }) */
  function Decode(d: Decoder, bytes: seq<Byte>): (Decoder, string)
    decreases |bytes|
  {
    if bytes == [] then (d, "")
    else
      var (d1, out) := Step(d, bytes[0]);
      var (d2, more) := Decode(d1, bytes[1..]);
      (d2, out + more)
  }

  /** decode() at the end: an unfinished character gives one replacement. */
  function Flush(d: Decoder): string {
    if d.needed > 0 then [REPLACEMENT] else ""
  }

  /** Cutting the bytes anywhere, also inside a character, does not change the text. */
  lemma {:induction false} DecodeConcat(d: Decoder, a: seq<Byte>, b: seq<Byte>)
    ensures Decode(d, a + b).0 == Decode(Decode(d, a).0, b).0
    ensures Decode(d, a + b).1 == Decode(d, a).1 + Decode(Decode(d, a).0, b).1
    decreases |a|
  {
    hide Step;
    if a == [] {
      assert a + b == b;
    } else {
      assert (a + b)[1..] == a[1..] + b;
      DecodeConcat(Step(d, a[0]).0, a[1..], b);
    }
  }

  // ---------------------------------------------------------------- the encoder it undoes

  function EncodeChar(c: char): seq<Byte> {
    var n := c as int;
    if n < 0x80 then [n]
    else if n < 0x800 then [0xC0 + n / 64, 0x80 + n % 64]
    else if n < 0x1_0000 then [0xE0 + n / 4096, 0x80 + n / 64 % 64, 0x80 + n % 64]
    else [0xF0 + n / 262144, 0x80 + n / 4096 % 64, 0x80 + n / 64 % 64, 0x80 + n % 64]
  }

  function Encode(s: string): seq<Byte> {
    if s == "" then [] else EncodeChar(s[0]) + Encode(s[1..])
  }

  lemma DecodeOne(d: Decoder, x: Byte)
    ensures Decode(d, [x]).0 == Step(d, x).0
    ensures Decode(d, [x]).1 == Step(d, x).1
  {
    assert [x][1..] == [];
    assert Decode(Step(d, x).0, []) == (Step(d, x).0, "");
  }

  lemma DecodeNext(d: Decoder, front: seq<Byte>, x: Byte)
    ensures Decode(d, front + [x]).0 == Step(Decode(d, front).0, x).0
    ensures Decode(d, front + [x]).1 == Decode(d, front).1 + Step(Decode(d, front).0, x).1
  {
    DecodeConcat(d, front, [x]);
    DecodeOne(Decode(d, front).0, x);
  }

  /** Continuation bytes carry six bits each. */
  lemma Continue(d: Decoder, x: int)
    requires 0 <= x < 64 && d.needed > 0 && d.lower <= 0x80 + x <= d.upper
    ensures Step(d, 0x80 + x) ==
      if d.needed == 1 then Emit(d, Scalar(d.bits * 64 + x)) else (Decoder(d.needed - 1, d.bits * 64 + x, 0x80, 0xBF, d.begun), "")
  {
  }

  lemma DecodeChar2(d: Decoder, c: char)
    requires d.needed == 0 && 0x80 <= c as int < 0x800
    ensures Decode(d, EncodeChar(c)) == Emit(d, c)
  {
    var n := c as int;
    var d1 := Decoder(1, n / 64, 0x80, 0xBF, d.begun);
    DecodeOne(d, 0xC0 + n / 64);
    DecodeNext(d, [0xC0 + n / 64], 0x80 + n % 64);
    Continue(d1, n % 64);
    assert "" + Emit(d, c).1 == Emit(d, c).1;
    assert [0xC0 + n / 64] + [0x80 + n % 64] == EncodeChar(c);
  }

  lemma Lead3(d: Decoder, x: int, y: int)
    requires d.needed == 0 && 0 <= x < 16 && 0 <= y < 64
    requires (x == 0 ==> y >= 0x20) && (x == 13 ==> y <= 0x1F)
    ensures Step(d, 0xE0 + x).1 == "" && Step(d, 0xE0 + x).0.needed == 2
    ensures Step(Step(d, 0xE0 + x).0, 0x80 + y) == (Decoder(1, x * 64 + y, 0x80, 0xBF, d.begun), "")
  {
  }

  /** The three groups of bits of a scalar value with sixteen bits. */
  lemma Groups3(c: char) returns (x: int, y: int, z: int)
    requires 0x800 <= c as int < 0x1_0000
    ensures 0 <= x < 16 && 0 <= y < 64 && 0 <= z < 64
    ensures (x == 0 ==> y >= 0x20) && (x == 13 ==> y <= 0x1F)
    ensures EncodeChar(c) == [0xE0 + x, 0x80 + y, 0x80 + z]
    ensures c as int == (x * 64 + y) * 64 + z
  {
    var n := c as int;
    x, y, z := n / 4096, n / 64 % 64, n % 64;
    assert n / 64 == x * 64 + y;
    assert x == 13 ==> n < 0xD800 by { assert !(0xD800 <= n < 0xE000); }
  }

  lemma DecodeChar3(d: Decoder, c: char)
    requires d.needed == 0 && 0x800 <= c as int < 0x1_0000
    ensures Decode(d, EncodeChar(c)) == Emit(d, c)
  {
    hide Decode, Step, EncodeChar;
    var x, y, z := Groups3(c);
    Lead3(d, x, y);
    DecodeOne(d, 0xE0 + x);
    DecodeNext(d, [0xE0 + x], 0x80 + y);
    DecodeNext(d, [0xE0 + x, 0x80 + y], 0x80 + z);
    Continue(Decoder(1, x * 64 + y, 0x80, 0xBF, d.begun), z);
    assert "" + Emit(d, c).1 == Emit(d, c).1;
    assert [0xE0 + x] + [0x80 + y] == [0xE0 + x, 0x80 + y];
    assert [0xE0 + x, 0x80 + y] + [0x80 + z] == EncodeChar(c);
  }

  lemma Lead4(d: Decoder, w: int, x: int)
    requires d.needed == 0 && 0 <= x < 64
    requires 0 <= w <= 4 && (w == 0 ==> x >= 0x10) && (w == 4 ==> x <= 0x0F)
    ensures Step(d, 0xF0 + w).1 == "" && Step(d, 0xF0 + w).0.needed == 3
    ensures Step(Step(d, 0xF0 + w).0, 0x80 + x) == (Decoder(2, w * 64 + x, 0x80, 0xBF, d.begun), "")
  {
  }

  /** The four groups of bits of a scalar value beyond the basic plane. */
  lemma Groups4(c: char) returns (w: int, x: int, y: int, z: int)
    requires 0x1_0000 <= c as int
    ensures 0 <= w <= 4 && 0 <= x < 64 && 0 <= y < 64 && 0 <= z < 64
    ensures (w == 0 ==> x >= 0x10) && (w == 4 ==> x <= 0x0F)
    ensures EncodeChar(c) == [0xF0 + w, 0x80 + x, 0x80 + y, 0x80 + z]
    ensures c as int == ((w * 64 + x) * 64 + y) * 64 + z
  {
    var n := c as int;
    w, x, y, z := n / 262144, n / 4096 % 64, n / 64 % 64, n % 64;
    assert n / 64 == n / 4096 * 64 + y;
    assert n / 4096 == w * 64 + x;
  }

  lemma DecodeChar4(d: Decoder, c: char)
    requires d.needed == 0 && 0x1_0000 <= c as int
    ensures Decode(d, EncodeChar(c)) == Emit(d, c)
  {
    hide Decode, Step, EncodeChar;
    var w, x, y, z := Groups4(c);
    Lead4(d, w, x);
    DecodeOne(d, 0xF0 + w);
    DecodeNext(d, [0xF0 + w], 0x80 + x);
    DecodeNext(d, [0xF0 + w, 0x80 + x], 0x80 + y);
    DecodeNext(d, [0xF0 + w, 0x80 + x, 0x80 + y], 0x80 + z);
    Continue(Decoder(2, w * 64 + x, 0x80, 0xBF, d.begun), y);
    Continue(Decoder(1, (w * 64 + x) * 64 + y, 0x80, 0xBF, d.begun), z);
    assert "" + Emit(d, c).1 == Emit(d, c).1;
    assert [0xF0 + w] + [0x80 + x] == [0xF0 + w, 0x80 + x];
    assert [0xF0 + w, 0x80 + x] + [0x80 + y] == [0xF0 + w, 0x80 + x, 0x80 + y];
    assert [0xF0 + w, 0x80 + x, 0x80 + y] + [0x80 + z] == EncodeChar(c);
  }

  lemma DecodeChar(d: Decoder, c: char)
    requires d.needed == 0
    ensures Decode(d, EncodeChar(c)) == Emit(d, c)
  {
    if c as int < 0x80 {
      DecodeOne(d, c as int);
    } else if c as int < 0x800 {
      DecodeChar2(d, c);
    } else if c as int < 0x1_0000 {
      DecodeChar3(d, c);
    } else {
      DecodeChar4(d, c);
    }
  }

  /** Once a first character has been seen, decoding what was encoded gives the text back. */
  lemma {:induction false} DecodeEncodeBegun(d: Decoder, s: string)
    requires d.needed == 0 && d.begun
    ensures Decode(d, Encode(s)).1 == s
    ensures Decode(d, Encode(s)).0.needed == 0
    decreases |s|
  {
    if s != "" {
      DecodeChar(d, s[0]);
      DecodeConcat(d, EncodeChar(s[0]), Encode(s[1..]));
      DecodeEncodeBegun(Idle(d), s[1..]);
    }
  }

  function DropByteOrderMark(s: string): string {
    if s != "" && s[0] == BYTE_ORDER_MARK then s[1..] else s
  }

  /** A fresh decoder gives every text back from its encoding, less one byte order mark in front. */
  lemma DecodeEncode(s: string)
    ensures Decode(FRESH, Encode(s)).1 == DropByteOrderMark(s)
    ensures Decode(FRESH, Encode(s)).0.needed == 0
  {
    hide EncodeChar, Step;
    if s != "" {
      DecodeChar(FRESH, s[0]);
      DecodeConcat(FRESH, EncodeChar(s[0]), Encode(s[1..]));
      DecodeEncodeBegun(Emit(FRESH, s[0]).0, s[1..]);
      hide Decode;
      assert s == [s[0]] + s[1..];
      assert Encode(s) == EncodeChar(s[0]) + Encode(s[1..]);
    }
  }

  // ---------------------------------------------------------------- bytes that are no text

  /** The decoder between two characters, the first of which has been seen. */
  const BEGUN := Decoder(0, 0, 0x80, 0xBF, true)

  /** The bytes begin the encoding of some character, or are all of it. */
  ghost predicate Continues(bytes: seq<Byte>) {
    exists c: char :: bytes <= EncodeChar(c)
  }

  /** The bytes begin the encoding of some character, and more must come. */
  ghost predicate Begins(bytes: seq<Byte>) {
    bytes != [] && exists c: char :: bytes < EncodeChar(c)
  }

  /** Well-formed byte sequences by their first byte, as in table 3-7 of the Unicode Standard. */
  function Length(b: Byte): nat {
    if b < 0x80 then 1 else if b < 0xC2 then 0 else if b < 0xE0 then 2 else if b < 0xF0 then 3 else if b < 0xF5 then 4 else 0
  }

  function Low(b: Byte): Byte {
    if b == 0xE0 then 0xA0 else if b == 0xF0 then 0x90 else 0x80
  }

  function High(b: Byte): Byte {
    if b == 0xED then 0x9F else if b == 0xF4 then 0x8F else 0xBF
  }

  predicate Legal(q: seq<Byte>) {
    && q != [] && |q| <= Length(q[0])
    && (|q| > 1 ==> Low(q[0]) <= q[1] <= High(q[0]))
    && (|q| > 2 ==> 0x80 <= q[2] <= 0xBF)
    && (|q| > 3 ==> 0x80 <= q[3] <= 0xBF)
  }

  lemma EncodingIsLegal(c: char)
    ensures Legal(EncodeChar(c)) && |EncodeChar(c)| == Length(EncodeChar(c)[0])
  {
    var n := c as int;
    if 0x800 <= n < 0x1_0000 {
      var x, y, z := Groups3(c);
      hide EncodeChar;
    } else if 0x1_0000 <= n {
      var w, x, y, z := Groups4(c);
      hide EncodeChar;
    }
  }

  lemma Char2(y: int, z: int) returns (c: char)
    requires 2 <= y < 32 && 0 <= z < 64
    ensures EncodeChar(c) == [0xC0 + y, 0x80 + z]
  {
    var n := y * 64 + z;
    assert n / 64 == y && n % 64 == z;
    c := n as char;
  }

  /** Three legal bytes are the encoding of a character. */
  lemma Char3(x: int, y: int, z: int) returns (c: char)
    requires 0 <= x < 16 && 0 <= y < 64 && 0 <= z < 64
    requires (x == 0 ==> y >= 0x20) && (x == 13 ==> y <= 0x1F)
    ensures EncodeChar(c) == [0xE0 + x, 0x80 + y, 0x80 + z]
  {
    var n := (x * 64 + y) * 64 + z;
    assert n / 64 == x * 64 + y && n % 64 == z;
    assert n / 4096 == x;
    assert 0x800 <= n < 0xD800 || 0xE000 <= n < 0x1_0000;
    c := n as char;
  }

  lemma Char4(w: int, x: int, y: int, z: int) returns (c: char)
    requires 0 <= w <= 4 && 0 <= x < 64 && 0 <= y < 64 && 0 <= z < 64
    requires (w == 0 ==> x >= 0x10) && (w == 4 ==> x <= 0x0F)
    ensures EncodeChar(c) == [0xF0 + w, 0x80 + x, 0x80 + y, 0x80 + z]
  {
    var n := ((w * 64 + x) * 64 + y) * 64 + z;
    assert n / 64 == (w * 64 + x) * 64 + y && n % 64 == z;
    assert n / 4096 == w * 64 + x;
    assert n / 262144 == w;
    c := n as char;
  }

  lemma LegalIsEncoding(q: seq<Byte>) returns (c: char)
    requires Legal(q) && |q| == Length(q[0])
    ensures EncodeChar(c) == q
  {
    if |q| == 1 {
      c := q[0] as char;
    } else if |q| == 2 {
      c := Char2(q[0] - 0xC0, q[1] - 0x80);
      hide EncodeChar;
    } else if |q| == 3 {
      c := Char3(q[0] - 0xE0, q[1] - 0x80, q[2] - 0x80);
      hide EncodeChar;
    } else {
      c := Char4(q[0] - 0xF0, q[1] - 0x80, q[2] - 0x80, q[3] - 0x80);
      hide EncodeChar;
    }
  }

  lemma {:induction false} LegalContinues(q: seq<Byte>) returns (c: char)
    requires Legal(q)
    ensures q <= EncodeChar(c)
    decreases 4 - |q|
  {
    if |q| == Length(q[0]) {
      c := LegalIsEncoding(q);
    } else {
      c := LegalContinues(q + [if |q| == 1 then Low(q[0]) else 0x80]);
    }
  }

  lemma ContinuesIff(q: seq<Byte>)
    requires q != []
    ensures Continues(q) <==> Legal(q)
    ensures Begins(q) <==> Legal(q) && |q| < Length(q[0])
  {
    if Legal(q) {
      var c := LegalContinues(q);
      EncodingIsLegal(c);
    }
    forall c: char | q <= EncodeChar(c) ensures Legal(q) && (q < EncodeChar(c) ==> |q| < Length(q[0])) {
      EncodingIsLegal(c);
    }
  }

  lemma {:induction false} LegalIsOpen(q: seq<Byte>) returns (d: Decoder)
    requires Legal(q) && |q| < Length(q[0])
    ensures Decode(BEGUN, q) == (d, "") && d.needed == Length(q[0]) - |q| && d.begun
    ensures if |q| == 1 then d.lower == Low(q[0]) && d.upper == High(q[0]) else d.lower == 0x80 && d.upper == 0xBF
    decreases |q|
  {
    hide Decode;
    var n := |q| - 1;
    if n == 0 {
      DecodeOne(BEGUN, q[0]);
      assert q == [q[0]];
      d := Step(BEGUN, q[0]).0;
    } else {
      var d1 := LegalIsOpen(q[..n]);
      DecodeNext(BEGUN, q[..n], q[n]);
      assert q == q[..n] + [q[n]];
      d := Step(d1, q[n]).0;
    }
  }

  /** Bytes that end in the middle of a character give no text, and one replacement at the end. */
  lemma TruncatedIsReplaced(bytes: seq<Byte>)
    requires Begins(bytes)
    ensures Decode(BEGUN, bytes).1 == "" && Flush(Decode(BEGUN, bytes).0) == [REPLACEMENT]
  {
    ContinuesIff(bytes);
    var d := LegalIsOpen(bytes);
  }

  /**
   A byte no character can go on with: the bytes before it, if a character had begun, give one
   replacement and the byte is read afresh; where no character had begun it gives one itself.
   */
  lemma BrokenIsReplaced(bytes: seq<Byte>, b: Byte)
    requires (bytes == [] || Begins(bytes)) && !Continues(bytes + [b])
    ensures Decode(BEGUN, bytes + [b]) ==
      if bytes == [] then (BEGUN, [REPLACEMENT])
      else (Decode(BEGUN, [b]).0, [REPLACEMENT] + Decode(BEGUN, [b]).1)
  {
    ContinuesIff(bytes + [b]);
    DecodeOne(BEGUN, b);
    if bytes == [] {
      assert bytes + [b] == [b];
    } else {
      ContinuesIff(bytes);
      var d := LegalIsOpen(bytes);
      DecodeNext(BEGUN, bytes, b);
      LegalNext(bytes, b);
      hide Decode, Legal, Step;
      BrokenStep(d, b);
      var out := [REPLACEMENT] + Step(BEGUN, b).1;
      assert "" + out == out;
    }
  }

  lemma LegalNext(q: seq<Byte>, b: Byte)
    requires Legal(q) && |q| < Length(q[0])
    ensures Legal(q + [b]) <==> if |q| == 1 then Low(q[0]) <= b <= High(q[0]) else 0x80 <= b <= 0xBF
  {
  }

  lemma BrokenStep(d: Decoder, b: Byte)
    requires d.needed > 0 && d.begun && !(d.lower <= b <= d.upper)
    ensures Step(d, b) == (Step(BEGUN, b).0, [REPLACEMENT] + Step(BEGUN, b).1)
  {
  }
}

/** The path check in front of every credentialed request (src/auth/credential-destinations.js). */
module UrlPath {
  import opened Text
  import Utf8
  import Base64

  predicate IsSeparator(c: char) {
    c == '/' || c == '\\'
  }

  predicate HasSeparator(s: string) {
    exists i :: 0 <= i < |s| && IsSeparator(s[i])
  }

  // ---------------------------------------------------------------- decodeURIComponent

  function HexValue(c: char): int {
    if '0' <= c <= '9' then c as int - '0' as int
    else if 'a' <= c <= 'f' then c as int - 'a' as int + 10
    else if 'A' <= c <= 'F' then c as int - 'A' as int + 10
    else -1
  }

  /** The byte an escape %XX at position i stands for; -1 when there is none. */
  function Escape(s: string, i: nat): (b: int)
    ensures b >= 0 ==> i + 3 <= |s| && b < 256
  {
    if i + 3 <= |s| && s[i] == '%' && HexValue(s[i + 1]) >= 0 && HexValue(s[i + 2]) >= 0
    then HexValue(s[i + 1]) * 16 + HexValue(s[i + 2])
    else -1
  }

  /** How many escapes a character takes whose first byte is b; 0 when no character begins so. */
  function EscapeCount(b: int): nat {
    if b < 0 then 0 else if b < 0x80 then 1 else if b < 0xC0 then 0 else if b < 0xE0 then 2 else if b < 0xF0 then 3 else if b < 0xF8 then 4 else 0
  }

  function Escapes(s: string, n: nat): seq<int>
  {
    seq(n, i requires i >= 0 => Escape(s, 3 * i))
  }

  function Bits(bytes: seq<int>): int {
    if |bytes| == 2 then bytes[0] % 32 * 64 + bytes[1] % 64
    else if |bytes| == 3 then (bytes[0] % 16 * 64 + bytes[1] % 64) * 64 + bytes[2] % 64
    else if |bytes| == 4 then ((bytes[0] % 8 * 64 + bytes[1] % 64) * 64 + bytes[2] % 64) * 64 + bytes[3] % 64
    else -1
  }

  /** One character of input: the character it decodes to and the length it takes. */
  datatype Unit = Unit(c: char, length: nat)

  function NextUnit(s: string): (u: Option<Unit>)
    requires s != ""
    ensures u.Some? ==> 0 < u.value.length <= |s|
  {
    if s[0] != '%' then Some(Unit(s[0], 1))
    else
      var b := Escape(s, 0);
      var n := EscapeCount(b);
      if n == 0 then None
      else if n == 1 then Some(Unit(b as char, 3))
      else
        var bytes := Escapes(s, n);
        var code := Bits(bytes);
        // shortest form, no surrogates, every escape present: exactly the encodings of a character
        if (0x80 <= code < 0xD800 || 0xE000 <= code < 0x11_0000) && bytes == Utf8.EncodeChar(code as char)
        then assert bytes[n - 1] == Escape(s, 3 * (n - 1)); Some(Unit(code as char, 3 * n))
        else None
  }

  /** decodeURIComponent; None where it throws. */
  function Decode(s: string): Option<string>
    decreases |s|
  {
    if s == "" then Some("")
    else
      match NextUnit(s)
      case None => None
      case Some(u) =>
        match Decode(s[u.length..])
        case None => None
        case Some(rest) => Some([u.c] + rest)
  }

  // ---------------------------------------------------------------- what it reads

  /** A hexadecimal digit of that value, in either case. */
  predicate IsDigit(c: char, n: int) {
    0 <= n < 16 && (c == "0123456789ABCDEF"[n] || c == "0123456789abcdef"[n])
  }

  /** The escape %XX of a byte stands at position i. */
  predicate IsEscape(s: string, i: nat, b: Base64.Byte) {
    i + 3 <= |s| && s[i] == '%' && IsDigit(s[i + 1], b / 16) && IsDigit(s[i + 2], b % 16)
  }

  /** An escape for every byte. */
  ghost predicate IsEscaped(bytes: seq<Base64.Byte>, s: string) {
    |s| == 3 * |bytes| && forall i | 0 <= i < |bytes| :: IsEscape(s, 3 * i, bytes[i])
  }

  /** A character stands for itself, unless it is '%', or its UTF-8 bytes are escaped. */
  ghost predicate IsPiece(c: char, s: string) {
    (c != '%' && s == [c]) || IsEscaped(Utf8.EncodeChar(c), s)
  }

  /** s is a spelling of the text t, piece by piece. */
  ghost predicate Spells(s: string, t: string)
    decreases |t|
  {
    if t == "" then s == "" else exists n :: 0 <= n <= |s| && IsPiece(t[0], s[..n]) && Spells(s[n..], t[1..])
  }

  lemma HexValueIff(c: char, n: int)
    requires n >= 0
    ensures HexValue(c) == n <==> IsDigit(c, n)
  {
  }

  lemma EscapeIff(s: string, i: nat, b: Base64.Byte)
    ensures Escape(s, i) == b <==> IsEscape(s, i, b)
  {
    if i + 3 <= |s| {
      HexValueIff(s[i + 1], b / 16);
      HexValueIff(s[i + 2], b % 16);
      HexValueRange(s[i + 1]);
      HexValueRange(s[i + 2]);
      hide HexValue, IsDigit;
    }
  }

  lemma HexValueRange(c: char)
    ensures -1 <= HexValue(c) < 16
  {
  }

  lemma EscapeInFront(s: string, i: nat, b: Base64.Byte, n: nat)
    requires i + 3 <= n <= |s|
    ensures IsEscape(s[..n], i, b) <==> Escape(s, i) == b
  {
    EscapeIff(s, i, b);
    hide IsDigit, Escape;
  }

  lemma EscapeFits(s: string, i: nat)
    ensures Escape(s, i) >= 0 ==> i + 3 <= |s|
  {
  }

  /** The escapes at the front of a text are those of the given bytes exactly when it begins with them. */
  lemma EscapesIff(s: string, bytes: seq<Base64.Byte>)
    ensures Escapes(s, |bytes|) == bytes <==> 3 * |bytes| <= |s| && IsEscaped(bytes, s[..3 * |bytes|])
  {
    hide Escape, IsEscape;
    var n := |bytes|;
    if Escapes(s, n) == bytes {
      if n > 0 {
        assert Escapes(s, n)[n - 1] == bytes[n - 1];
        EscapeFits(s, 3 * (n - 1));
      }
      forall i | 0 <= i < n ensures IsEscape(s[..3 * n], 3 * i, bytes[i]) {
        assert Escapes(s, n)[i] == bytes[i];
        EscapeInFront(s, 3 * i, bytes[i], 3 * n);
      }
    } else if 3 * n <= |s| && IsEscaped(bytes, s[..3 * n]) {
      forall i | 0 <= i < n ensures Escapes(s, n)[i] == bytes[i] {
        EscapeInFront(s, 3 * i, bytes[i], 3 * n);
      }
    }
  }

  lemma LowBits(w: int, x: int, y: int)
    requires 0 <= w < 8 && 0 <= x < 16 && 0 <= y < 64
    ensures (0xF0 + w) % 8 == w && (0xE0 + x) % 16 == x && (0x80 + y) % 64 == y
    ensures y < 32 ==> (0xC0 + y) % 32 == y
  {
  }

  /** The leading byte tells the length, and the bytes hold the character's own bits. */
  lemma BytesTellCharacter(c: char)
    ensures var bytes := Utf8.EncodeChar(c);
      && |bytes| > 0 && EscapeCount(bytes[0]) == |bytes| && (|bytes| == 1 ==> bytes[0] as char == c)
      && (|bytes| > 1 ==> Bits(bytes) == c as int && c as int >= 0x80)
  {
    var n := c as int;
    if 0x80 <= n < 0x800 {
      LowBits(0, 0, n / 64);
      LowBits(0, 0, n % 64);
    } else if 0x800 <= n < 0x1_0000 {
      var x, y, z := Utf8.Groups3(c);
      hide Utf8.EncodeChar;
      LowBits(0, x, y);
      LowBits(0, x, z);
    } else if 0x1_0000 <= n {
      var w, x, y, z := Utf8.Groups4(c);
      hide Utf8.EncodeChar;
      LowBits(w, 0, x);
      LowBits(w, 0, y);
      LowBits(w, 0, z);
    }
  }

  /** What the next unit is: a plain character, or a character whose escapes stand in front. */
  lemma NextUnitIff(s: string, c: char, n: nat)
    requires s != ""
    ensures NextUnit(s) == Some(Unit(c, n)) <==> n <= |s| && IsPiece(c, s[..n])
  {
    var bytes := Utf8.EncodeChar(c);
    BytesTellCharacter(c);
    EscapesIff(s, bytes);
    if n <= |s| && IsPiece(c, s[..n]) {
      PieceIsNext(s, c, n);
    }
    if NextUnit(s) == Some(Unit(c, n)) {
      NextIsPiece(s, c, n);
    }
  }

  lemma PieceIsNext(s: string, c: char, n: nat)
    requires n <= |s| && s != "" && IsPiece(c, s[..n])
    ensures NextUnit(s) == Some(Unit(c, n))
  {
    var bytes := Utf8.EncodeChar(c);
    BytesTellCharacter(c);
    if c != '%' && s[..n] == [c] {
      assert s[0] == s[..n][0] == c;
    } else {
      EscapesIff(s, bytes);
      assert s[0] == s[..n][3 * 0] == '%';
      assert Escape(s, 3 * 0) == Escapes(s, |bytes|)[0] == bytes[0];
      hide Escape, Bits, Utf8.EncodeChar, IsEscaped;
    }
  }

  lemma NextIsPiece(s: string, c: char, n: nat)
    requires s != "" && NextUnit(s) == Some(Unit(c, n))
    ensures n <= |s| && IsPiece(c, s[..n])
  {
    if s[0] != '%' {
      assert s[..1] == [s[0]];
    } else {
      var bytes := Utf8.EncodeChar(c);
      EscapesIff(s, bytes);
      if n == 3 {
        SingleEscape(s);
      }
      hide Escape, Bits, Utf8.EncodeChar, IsEscaped;
    }
  }

  lemma SingleEscape(s: string)
    requires s != "" && 0 <= Escape(s, 0) < 0x80
    ensures Escapes(s, 1) == [Escape(s, 0)] == Utf8.EncodeChar(Escape(s, 0) as char)
  {
    assert Escapes(s, 1)[0] == Escape(s, 3 * 0);
  }

  /** A text decodes to t exactly when it spells t: anything else, and nothing else, throws. */
  lemma {:induction false} DecodeIff(s: string, t: string)
    ensures Decode(s) == Some(t) <==> Spells(s, t)
    decreases |s| + |t|
  {
    hide NextUnit, IsPiece;
    if s == "" {
      if t != "" {
        NothingSpells(t);
      }
    } else if t != "" {
      if Decode(s) == Some(t) {
        var u := NextUnit(s).value;
        NextUnitIff(s, u.c, u.length);
        assert t[0] == u.c && t[1..] == Decode(s[u.length..]).value;
        DecodeIff(s[u.length..], t[1..]);
      }
      if Spells(s, t) {
        var n :| 0 <= n <= |s| && IsPiece(t[0], s[..n]) && Spells(s[n..], t[1..]);
        NextUnitIff(s, t[0], n);
        DecodeIff(s[n..], t[1..]);
        assert t == [t[0]] + t[1..];
      }
    }
  }

  lemma NothingSpells(t: string)
    requires t != ""
    ensures !Spells("", t)
  {
    BytesTellCharacter(t[0]);
  }

  // ---------------------------------------------------------------- the check

  function Split(s: string): (segments: seq<string>)
    ensures segments != []
  {
    if s == "" then [""]
    else if IsSeparator(s[0]) then [""] + Split(s[1..])
    else
      var rest := Split(s[1..]);
      [[s[0]] + rest[0]] + rest[1..]
  }

  /** isUnsafePathSegment */
  predicate IsUnsafeSegment(segment: string) {
    match Decode(segment)
    case None => true
    case Some(decoded) => decoded == "." || decoded == ".." || HasSeparator(decoded)
  }

  function DropTabsAndNewlines(s: string): string {
    if s == "" then ""
    else if s[0] == '\t' || s[0] == '\n' || s[0] == '\r' then DropTabsAndNewlines(s[1..])
    else [s[0]] + DropTabsAndNewlines(s[1..])
  }

  function TrimControls(s: string): string
    decreases |s|
  {
    if s != "" && s[0] as int <= 0x20 then TrimControls(s[1..])
    else if s != "" && s[|s| - 1] as int <= 0x20 then TrimControls(s[..|s| - 1])
    else s
  }

  predicate IsLetter(c: char) {
    'a' <= c <= 'z' || 'A' <= c <= 'Z'
  }

  function SchemeLength(s: string): (n: nat)
    ensures n <= |s|
  {
    if s != "" && (IsLetter(s[0]) || '0' <= s[0] <= '9' || s[0] == '+' || s[0] == '.' || s[0] == '-') then 1 + SchemeLength(s[1..]) else 0
  }

  function SkipSeparators(s: string): string {
    if s != "" && IsSeparator(s[0]) then SkipSeparators(s[1..]) else s
  }

  function SkipAuthority(s: string): (r: string)
    ensures r == "" || IsSeparator(r[0]) || r[0] == '?' || r[0] == '#'
  {
    if s != "" && !IsSeparator(s[0]) && s[0] != '?' && s[0] != '#' then SkipAuthority(s[1..]) else s
  }

  /** A scheme and a colon in front, as every URL with an origin has. */
  predicate HasScheme(text: string) {
    var n := SchemeLength(text);
    text != "" && IsLetter(text[0]) && n < |text| && text[n] == ':'
  }

  function BeforeQuery(s: string): (r: string)
    ensures r <= s
  {
    if s == "" || s[0] == '?' || s[0] == '#' then "" else [s[0]] + BeforeQuery(s[1..])
  }

  function CleanText(target: string): string {
    TrimControls(DropTabsAndNewlines(target))
  }

  /** The part of the URL text after scheme and authority and before "?" or "#". */
  function PathText(target: string): string {
    var text := CleanText(target);
    BeforeQuery(if HasScheme(text) then SkipAuthority(SkipSeparators(text[SchemeLength(text) + 1..])) else text)
  }

  /** hasUnsafePathSegment */
  predicate HasUnsafePathSegment(target: string) {
    exists i :: 0 <= i < |Split(PathText(target))| && IsUnsafeSegment(Split(PathText(target))[i])
  }

  // ---------------------------------------------------------------- decoding and splitting commute

  /** A character in front of a separator decodes without looking at it. */
  lemma UnitStopsAtSeparator(a: string, sep: char, b: string)
    requires a != "" && IsSeparator(sep)
    ensures NextUnit(a + [sep] + b) == NextUnit(a)
  {
    var s := a + [sep] + b;
    assert s[|a|] == sep && HexValue(sep) < 0;
    assert Escape(s, 0) == Escape(a, 0);
    var n := EscapeCount(Escape(a, 0));
    hide Escapes, NextUnit, Broken;
    if n > 1 {
      EscapesAgree(a, sep, b, n);
      BrokenIsNone(a);
      BrokenIsNone(s);
    }
    if n <= 1 || Escapes(s, n) == Escapes(a, n) {
      SameUnit(s, a);
    }
  }

  /** What a character decodes to depends on nothing but its own escapes. */
  lemma SameUnit(s: string, a: string)
    requires s != "" && a != "" && s[0] == a[0] && Escape(s, 0) == Escape(a, 0)
    requires var n := EscapeCount(Escape(a, 0)); n <= 1 || Escapes(s, n) == Escapes(a, n)
    ensures NextUnit(s) == NextUnit(a)
  {
    hide Escape, Bits, Escapes, Utf8.EncodeChar;
  }

  lemma BrokenIsNone(s: string)
    requires s != ""
    ensures s[0] == '%' && EscapeCount(Escape(s, 0)) > 1 && Broken(Escapes(s, EscapeCount(Escape(s, 0)))) ==> NextUnit(s) == None
  {
    hide Escape, Bits, Escapes, Utf8.EncodeChar;
  }

  /** The escapes of one character are either the same or broken off by the separator in both. */
  lemma EscapesAgree(a: string, sep: char, b: string, n: nat)
    requires IsSeparator(sep) && 1 < n <= 4
    ensures Escapes(a + [sep] + b, n) == Escapes(a, n) || (Broken(Escapes(a + [sep] + b, n)) && Broken(Escapes(a, n)))
  {
    var s := a + [sep] + b;
    forall i: nat | i < |a| ensures Escape(s, i) == Escape(a, i) {
      if s[i] == '%' && i + 3 > |a| {
        assert s[|a|] == sep && HexValue(sep) < 0;
      }
    }
    if 3 * (n - 1) < |a| {
      assert Escapes(s, n) == Escapes(a, n);
    } else {
      CutOff(a, sep, b, n);
    }
  }

  ghost predicate Broken(bytes: seq<int>) {
    exists i :: 0 <= i < |bytes| && bytes[i] < 0
  }

  lemma CutOff(a: string, sep: char, b: string, n: nat)
    requires IsSeparator(sep) && 1 < n <= 4 && 3 * (n - 1) >= |a|
    ensures Broken(Escapes(a + [sep] + b, n)) && Broken(Escapes(a, n))
  {
    var s := a + [sep] + b;
    assert Escapes(a, n)[n - 1] < 0;
    var k := |a| / 3;
    assert s[|a|] == sep && HexValue(sep) < 0;
    assert Escape(s, 3 * k) < 0;
    assert Escapes(s, n)[k] < 0;
  }

  /** A separator stands for itself and keeps its two sides apart. */
  lemma {:induction false} DecodeAcross(a: string, sep: char, b: string)
    requires IsSeparator(sep)
    ensures Decode(a + [sep] + b) ==
      if Decode(a).Some? && Decode(b).Some? then Some(Decode(a).value + [sep] + Decode(b).value) else None
    decreases |a|
  {
    hide Decode, NextUnit;
    var s := a + [sep] + b;
    DecodeStep(s);
    if a == "" {
      SeparatorUnit(s);
      assert s[0] == sep && s[1..] == b;
      assert Decode("") == Some("") by { DecodeEmpty(); }
      assert "" + [sep] == [sep];
    } else {
      DecodeStep(a);
      UnitStopsAtSeparator(a, sep, b);
      var u := NextUnit(a);
      if u.Some? {
        var n := u.value.length;
        assert s[n..] == a[n..] + [sep] + b;
        DecodeAcross(a[n..], sep, b);
        if Decode(a).Some? && Decode(b).Some? {
          var mid, back := Decode(a[n..]).value, Decode(b).value;
          assert [u.value.c] + (mid + [sep] + back) == ([u.value.c] + mid) + [sep] + back;
        }
      }
    }
  }

  /** Decoding one character and then the rest. */
  lemma DecodeStep(s: string)
    requires s != ""
    ensures Decode(s) ==
      match NextUnit(s)
      case None => None
      case Some(u) => if Decode(s[u.length..]).None? then None else Some([u.c] + Decode(s[u.length..]).value)
  {
  }

  lemma DecodeEmpty()
    ensures Decode("") == Some("")
  {
  }

  lemma SeparatorUnit(s: string)
    requires s != "" && IsSeparator(s[0])
    ensures NextUnit(s) == Some(Unit(s[0], 1))
  {
  }

  lemma {:induction false} SplitAcross(a: string, sep: char, b: string)
    requires IsSeparator(sep)
    ensures Split(a + [sep] + b) == Split(a) + Split(b)
    decreases |a|
  {
    var s := a + [sep] + b;
    if a == "" {
      assert s[1..] == b;
    } else {
      assert s[1..] == a[1..] + [sep] + b;
      SplitAcross(a[1..], sep, b);
    }
  }

  lemma {:induction false} SplitWhole(s: string)
    ensures !HasSeparator(s) <==> |Split(s)| == 1
    ensures !HasSeparator(s) ==> Split(s) == [s]
  {
    if s != "" {
      SplitWhole(s[1..]);
      assert s == [s[0]] + s[1..];
      if HasSeparator(s[1..]) {
        var i :| 0 <= i < |s[1..]| && IsSeparator(s[1..][i]);
        assert IsSeparator(s[i + 1]);
      } else if HasSeparator(s) {
        var i :| 0 <= i < |s| && IsSeparator(s[i]);
        assert i > 0 ==> IsSeparator(s[1..][i - 1]);
      }
    }
  }

  /** Every segment decodes. */
  ghost predicate AllDecode(segments: seq<string>) {
    forall i | 0 <= i < |segments| :: Decode(segments[i]).Some?
  }

  /** Split first, then decode each segment. */
  function DecodeEach(segments: seq<string>): (decoded: seq<string>)
    ensures |decoded| == |segments|
    ensures forall i | 0 <= i < |segments| && Decode(segments[i]).Some? :: decoded[i] == Decode(segments[i]).value
  {
    seq(|segments|, i requires 0 <= i < |segments| => Decode(segments[i]).GetOr(""))
  }

  function SplitEach(segments: seq<string>): (parts: seq<seq<string>>)
    ensures |parts| == |segments| && forall i | 0 <= i < |segments| :: parts[i] == Split(segments[i])
  {
    seq(|segments|, i requires 0 <= i < |segments| => Split(segments[i]))
  }

  /** The first separator of a path that has one. */
  lemma FirstSeparator(p: string) returns (i: nat)
    requires HasSeparator(p)
    ensures i < |p| && IsSeparator(p[i]) && !HasSeparator(p[..i]) && p == p[..i] + [p[i]] + p[i + 1..]
  {
    if IsSeparator(p[0]) {
      i := 0;
    } else {
      var j :| 0 <= j < |p| && IsSeparator(p[j]);
      assert IsSeparator(p[1..][j - 1]);
      i := FirstSeparator(p[1..]);
      i := i + 1;
      forall k | 0 <= k < i ensures !IsSeparator(p[k]) {
        assert k > 0 ==> !IsSeparator(p[1..][..i - 1][k - 1]);
      }
    }
  }

  /** Decoding a whole path succeeds exactly when every segment decodes, and then splits into the split decoded segments. */
  lemma {:induction false} DecodeWholePath(p: string)
    ensures Decode(p).Some? <==> AllDecode(Split(p))
    ensures Decode(p).Some? ==> Split(Decode(p).value) == Flatten(SplitEach(DecodeEach(Split(p))))
    decreases |p|
  {
    hide *;
    if HasSeparator(p) {
      var i := FirstSeparator(p);
      DecodeWholePath(p[i + 1..]);
      DecodeJoined(p[..i], p[i], p[i + 1..]);
    } else {
      DecodeUnsplit(p);
    }
  }

  lemma DecodeUnsplit(p: string)
    requires !HasSeparator(p)
    ensures Decode(p).Some? <==> AllDecode(Split(p))
    ensures Decode(p).Some? ==> Split(Decode(p).value) == Flatten(SplitEach(DecodeEach(Split(p))))
  {
    SplitWhole(p);
    hide Decode, HasSeparator, Split;
    assert Split(p)[0] == p;
    if Decode(p).Some? {
      var parts := SplitEach(DecodeEach([p]));
      assert parts == [Split(Decode(p).value)];
      assert Flatten(parts) == parts[0] + Flatten<string>([]);
    }
  }

  lemma DecodeJoined(a: string, sep: char, b: string)
    requires !HasSeparator(a) && IsSeparator(sep)
    requires Decode(b).Some? <==> AllDecode(Split(b))
    requires Decode(b).Some? ==> Split(Decode(b).value) == Flatten(SplitEach(DecodeEach(Split(b))))
    ensures var p := a + [sep] + b;
      && (Decode(p).Some? <==> AllDecode(Split(p)))
      && (Decode(p).Some? ==> Split(Decode(p).value) == Flatten(SplitEach(DecodeEach(Split(p)))))
  {
    hide *;
    DecodeAcross(a, sep, b);
    SplitAcross(a, sep, b);
    SplitWhole(a);
    AllDecodeHead(a, Split(b));
    if Decode(a).Some? && Decode(b).Some? {
      SplitAcross(Decode(a).value, sep, Decode(b).value);
      PartsHead(a, Split(b));
    }
  }

  lemma PartsHead(head: string, rest: seq<string>)
    requires Decode(head).Some?
    ensures Flatten(SplitEach(DecodeEach([head] + rest))) == Split(Decode(head).value) + Flatten(SplitEach(DecodeEach(rest)))
  {
    hide Decode, Split;
    DecodeEachHead(head, rest);
    var x, decoded := Decode(head).value, DecodeEach(rest);
    SplitEachHead(x, decoded);
    hide SplitEach, DecodeEach;
    assert ([Split(x)] + SplitEach(decoded))[1..] == SplitEach(decoded);
  }

  lemma DecodeEachHead(head: string, rest: seq<string>)
    requires Decode(head).Some?
    ensures DecodeEach([head] + rest) == [Decode(head).value] + DecodeEach(rest)
  {
    hide Decode;
  }

  lemma SplitEachHead(x: string, rest: seq<string>)
    ensures SplitEach([x] + rest) == [Split(x)] + SplitEach(rest)
  {
    hide Split;
  }

  lemma AllDecodeHead(head: string, rest: seq<string>)
    ensures AllDecode([head] + rest) <==> Decode(head).Some? && AllDecode(rest)
  {
    var all := [head] + rest;
    assert all[0] == head;
    assert forall i | 0 <= i < |rest| :: all[i + 1] == rest[i];
  }

  /** Flattening parts that are not empty gives as many elements as parts only if each part has one. */
  lemma {:induction false} FlattenSingles(parts: seq<seq<string>>)
    requires forall i | 0 <= i < |parts| :: parts[i] != []
    ensures |Flatten(parts)| >= |parts|
    ensures |Flatten(parts)| == |parts| <==> forall i | 0 <= i < |parts| :: |parts[i]| == 1
    ensures |Flatten(parts)| == |parts| ==> forall i | 0 <= i < |parts| :: Flatten(parts)[i] == parts[i][0]
  {
    if parts != [] {
      FlattenSingles(parts[1..]);
      assert forall i | 1 <= i < |parts| :: parts[i] == parts[1..][i - 1];
    }
  }

  /**
   For a path that decodes: decoding it once and then splitting gives the list of its decoded
   segments exactly when no decoded segment hides a separator.
   */
  lemma CommuteIff(p: string)
    requires AllDecode(Split(p))
    ensures Decode(p).Some?
    ensures Split(Decode(p).value) == DecodeEach(Split(p)) <==>
      forall i | 0 <= i < |Split(p)| :: !HasSeparator(Decode(Split(p)[i]).value)
  {
    DecodeWholePath(p);
    var decoded := DecodeEach(Split(p));
    var parts := SplitEach(decoded);
    FlattenSingles(parts);
    forall i | 0 <= i < |decoded| ensures (|parts[i]| == 1 <==> !HasSeparator(decoded[i])) && (|parts[i]| == 1 ==> parts[i] == [decoded[i]]) {
      SplitWhole(decoded[i]);
    }
    if forall i | 0 <= i < |Split(p)| :: !HasSeparator(Decode(Split(p)[i]).value) {
      assert forall i | 0 <= i < |parts| :: |parts[i]| == 1;
      assert Flatten(parts) == decoded;
    } else {
      var i :| 0 <= i < |Split(p)| && HasSeparator(Decode(Split(p)[i]).value);
      assert HasSeparator(decoded[i]) && |parts[i]| != 1;
    }
  }
}

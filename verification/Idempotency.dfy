/** Idempotency keys: how they are built, checked and put on the wire (src/auth/http.js). */
module Idempotency {
  import opened Text

  const KEY_MIN_LENGTH := 32

  predicate IsHex(c: char) {
    '0' <= c <= '9' || 'a' <= c <= 'f' || 'A' <= c <= 'F'
  }

  /** A letter, digit, '_' or '-' of either case. */
  predicate IsKeyChar(c: char) {
    '0' <= c <= '9' || 'a' <= c <= 'z' || 'A' <= c <= 'Z' || c == '_' || c == '-'
  }

  predicate AllHex(s: string) {
    forall c | c in s :: IsHex(c)
  }

  predicate AllKeyChars(s: string) {
    forall c | c in s :: IsKeyChar(c)
  }

  /** UUID_V4_PATTERN */
  predicate IsUuidV4(s: string) {
    && |s| == 36
    && s[8] == '-' && s[13] == '-' && s[18] == '-' && s[23] == '-'
    && s[14] == '4'
    && s[19] in "89abAB"
    && AllHex(s[..8] + s[9..13] + s[14..18] + s[19..23] + s[24..])
  }

  /** PREFIXED_UUID_V4_PATTERN: a first letter or digit, one to forty-eight more characters, '-', a UUID. */
  predicate IsPrefixedUuid(s: string) {
    && 39 <= |s| <= 86
    && IsKeyChar(s[0]) && s[0] != '_' && s[0] != '-'
    && AllKeyChars(s[1..|s| - 37])
    && s[|s| - 37] == '-'
    && IsUuidV4(s[|s| - 36..])
  }

  /** isValidIdempotencyKey */
  predicate IsValidKey(value: string) {
    var key := Trim(value);
    && key != ""
    && (IsUuidV4(key) || IsPrefixedUuid(key) || (|key| >= KEY_MIN_LENGTH && AllKeyChars(key)))
  }

  /** A version 4 UUID, character by character. */
  lemma UuidIff(s: string)
    ensures IsUuidV4(s) <==>
      |s| == 36 && forall i | 0 <= i < 36 ::
        if i in {8, 13, 18, 23} then s[i] == '-' else if i == 14 then s[i] == '4' else if i == 19 then s[i] in "89abAB" else IsHex(s[i])
    ensures forall c :: IsHex(c) <==> c in "0123456789abcdefABCDEF"
  {
    if |s| == 36 {
      HexParts(s[..8], s[9..13], s[14..18], s[19..23], s[24..]);
    }
    forall c: char ensures IsHex(c) <==> c in "0123456789abcdefABCDEF" {
      HexIff(c);
    }
  }

  lemma HexParts(a: string, b: string, c: string, d: string, e: string)
    ensures AllHex(a + b + c + d + e) <==> AllHex(a) && AllHex(b) && AllHex(c) && AllHex(d) && AllHex(e)
  {
    hide IsHex;
  }

  lemma HexIff(c: char)
    ensures IsHex(c) <==> c in "0123456789abcdefABCDEF"
  {
    var digits, n := "0123456789abcdefABCDEF", c as int;
    if '0' <= c <= '9' {
      assert digits[n - 48] == c;
    } else if 'a' <= c <= 'f' {
      assert digits[n - 97 + 10] == c;
    } else if 'A' <= c <= 'F' {
      assert digits[n - 65 + 16] == c;
    }
  }

  lemma UuidIsPlain(s: string)
    requires IsUuidV4(s)
    ensures AllKeyChars(s)
  {
    var hex := s[..8] + s[9..13] + s[14..18] + s[19..23] + s[24..];
    forall i | 0 <= i < |s| ensures IsKeyChar(s[i]) {
      if i !in {8, 13, 18, 23} {
        var j := if i < 8 then i else if i < 13 then i - 1 else if i < 18 then i - 2 else if i < 23 then i - 3 else i - 4;
        assert hex[j] == s[i] && hex[j] in hex;
      }
    }
  }

  /** The two UUID patterns accept nothing that the length and alphabet test does not. */
  lemma ValidKeyIff(value: string)
    ensures IsValidKey(value) <==> |Trim(value)| >= KEY_MIN_LENGTH && AllKeyChars(Trim(value))
  {
    var key := Trim(value);
    hide Trim;
    if IsUuidV4(key) {
      UuidIsPlain(key);
    }
    if IsPrefixedUuid(key) {
      PrefixedUuidIsPlain(key);
    }
    assert IsPrefixedUuid(key) ==> |key| >= KEY_MIN_LENGTH;
    hide IsUuidV4, IsPrefixedUuid, AllKeyChars;
  }

  /** A key that is neither a UUID nor a prefixed one, and passes. */
  lemma PlainTextIsValid() returns (key: string)
    ensures IsValidKey(key) && !IsUuidV4(Trim(key)) && !IsPrefixedUuid(Trim(key))
  {
    key := "aaaaaaaaaaaaaaaaaaaaaaaaaaaaaaaa";
    assert forall c | c in key :: c == 'a';
    assert |key| == 32;
    TrimKeepsTrimmed(key);
    ValidKeyIff(key);
  }

  lemma PrefixedUuidIsPlain(key: string)
    requires IsPrefixedUuid(key)
    ensures AllKeyChars(key)
  {
    var n := |key| - 36;
    UuidIsPlain(key[n..]);
    hide IsUuidV4;
    forall i | 0 <= i < |key| ensures IsKeyChar(key[i]) {
      if i >= n {
        assert key[i] == key[n..][i - n];
      } else if 0 < i < n - 1 {
        assert key[i] == key[1..n - 1][i - 1];
      }
    }
  }

  // ---------------------------------------------------------------- building a key

  predicate IsOperationChar(c: char) {
    'a' <= c <= 'z' || '0' <= c <= '9'
  }

  /** Every run of other characters becomes one '-'. */
  function Dashed(s: string): string {
    if s == "" then ""
    else if IsOperationChar(s[0]) then [s[0]] + Dashed(s[1..])
    else if |s| > 1 && !IsOperationChar(s[1]) then Dashed(s[1..])
    else "-" + Dashed(s[1..])
  }

  function DropDashes(s: string): string {
    if s != "" && s[0] == '-' then DropDashes(s[1..]) else s
  }

  function DropTrailingDashes(s: string): string {
    if s != "" && s[|s| - 1] == '-' then DropTrailingDashes(s[..|s| - 1]) else s
  }

  /** sanitizeOperationName, from the lower-cased name on. */
  function SanitizeOperation(lowered: string): string {
    var cleaned := DropTrailingDashes(DropDashes(Dashed(lowered)));
    var cut := if |cleaned| > 32 then cleaned[..32] else cleaned;
    if cut == "" then "mutation" else cut
  }

  lemma DashedIsPlain(s: string)
    ensures AllKeyChars(Dashed(s))
  {
  }

  lemma DropDashesIsPart(s: string)
    ensures forall c | c in DropDashes(s) :: c in s
  {
  }

  lemma DropTrailingDashesIsPart(s: string)
    ensures DropTrailingDashes(s) <= s
  {
  }

  lemma SanitizedIsPlain(lowered: string)
    ensures 1 <= |SanitizeOperation(lowered)| <= 32 && AllKeyChars(SanitizeOperation(lowered))
  {
    DashedIsPlain(lowered);
    DropDashesIsPart(Dashed(lowered));
    DropTrailingDashesIsPart(DropDashes(Dashed(lowered)));
  }

  predicate IsWord(s: string) {
    s != "" && forall i | 0 <= i < |s| :: 'a' <= s[i] <= 'z' || '0' <= s[i] <= '9'
  }

  predicate IsJunk(s: string) {
    forall i | 0 <= i < |s| :: !('a' <= s[i] <= 'z' || '0' <= s[i] <= '9')
  }

  /** Words and what stands around them; the first piece may be empty. */
  function Sentence(pieces: seq<(string, string)>, tail: string): string {
    if pieces == [] then tail else pieces[0].0 + pieces[0].1 + Sentence(pieces[1..], tail)
  }

  /** The words alone, one dash between two. */
  function Hyphenated(pieces: seq<(string, string)>): string {
    if pieces == [] then ""
    else pieces[0].1 + (if |pieces| == 1 then "" else "-") + Hyphenated(pieces[1..])
  }

  ghost predicate ArePieces(pieces: seq<(string, string)>) {
    && (forall i | 0 <= i < |pieces| :: IsJunk(pieces[i].0) && IsWord(pieces[i].1))
    && (forall i | 0 < i < |pieces| :: pieces[i].0 != "")
  }

  lemma {:induction false} DashedJunk(junk: string, rest: string)
    requires IsJunk(junk) && junk != "" && (rest != "" ==> IsOperationChar(rest[0]))
    ensures Dashed(junk + rest) == "-" + Dashed(rest)
  {
    var s := junk + rest;
    assert s[0] == junk[0];
    if |junk| == 1 {
      assert s[1..] == rest;
    } else {
      assert s[1] == junk[1] && s[1..] == junk[1..] + rest;
      DashedJunk(junk[1..], rest);
    }
  }

  lemma {:induction false} DashedWord(word: string, rest: string)
    requires forall i | 0 <= i < |word| :: IsOperationChar(word[i])
    ensures Dashed(word + rest) == word + Dashed(rest)
  {
    if word == "" {
      assert word + rest == rest;
    } else {
      assert (word + rest)[1..] == word[1..] + rest;
      DashedWord(word[1..], rest);
      assert word == [word[0]] + word[1..];
    }
  }

  function Dash(junk: string): string {
    if junk == "" then "" else "-"
  }

  lemma DashedPiece(junk: string, word: string, rest: string)
    requires IsJunk(junk) && IsWord(word)
    ensures Dashed(junk + word + rest) == Dash(junk) + word + Dashed(rest)
  {
    assert junk + word + rest == junk + (word + rest);
    DashedWord(word, rest);
    assert Dash(junk) + word + Dashed(rest) == Dash(junk) + (word + Dashed(rest));
    if junk != "" {
      DashedJunk(junk, word + rest);
    } else {
      assert junk + (word + rest) == word + rest;
      assert "" + (word + Dashed(rest)) == word + Dashed(rest);
    }
  }

  lemma DashedTail(tail: string)
    requires IsJunk(tail)
    ensures Dashed(tail) == Dash(tail)
  {
    if tail != "" {
      DashedJunk(tail, "");
      assert tail + "" == tail;
    }
  }

  lemma FirstPiece(pieces: seq<(string, string)>)
    requires ArePieces(pieces) && pieces != []
    ensures IsJunk(pieces[0].0) && IsWord(pieces[0].1) && ArePieces(pieces[1..])
    ensures |pieces| > 1 ==> Dash(pieces[1..][0].0) == "-"
  {
  }

  lemma SplitFirstPiece(pieces: seq<(string, string)>, tail: string)
    requires pieces != []
    ensures Sentence(pieces, tail) == pieces[0].0 + pieces[0].1 + Sentence(pieces[1..], tail)
    ensures Hyphenated(pieces) == pieces[0].1 + (if |pieces| == 1 then "" else "-") + Hyphenated(pieces[1..])
    ensures pieces[1..] == [] ==> Sentence(pieces[1..], tail) == tail && Hyphenated(pieces[1..]) == ""
  {
  }

  lemma {:induction false} DashedSentence(pieces: seq<(string, string)>, tail: string)
    requires ArePieces(pieces) && pieces != [] && IsJunk(tail)
    ensures Dashed(Sentence(pieces, tail)) == Dash(pieces[0].0) + Hyphenated(pieces) + Dash(tail)
    decreases |pieces|
  {
    hide *;
    FirstPiece(pieces);
    SplitFirstPiece(pieces, tail);
    var junk, word, rest := pieces[0].0, pieces[0].1, Sentence(pieces[1..], tail);
    DashedPiece(junk, word, rest);
    if |pieces| == 1 {
      assert pieces[1..] == [];
      DashedTail(tail);
      assert word + "" + "" == word;
    } else {
      DashedSentence(pieces[1..], tail);
      var after := Hyphenated(pieces[1..]);
      assert Dash(junk) + word + ("-" + after + Dash(tail)) == Dash(junk) + (word + "-" + after) + Dash(tail);
    }
  }

  lemma {:induction false} HyphenatedEnds(pieces: seq<(string, string)>)
    requires ArePieces(pieces) && pieces != []
    ensures var h := Hyphenated(pieces); h != "" && h[0] != '-' && h[|h| - 1] != '-'
    decreases |pieces|
  {
    assert IsWord(pieces[0].1);
    if |pieces| > 1 {
      HyphenatedEnds(pieces[1..]);
    }
  }

  /**
   The operation part of a key: the words of the lower-cased name with one dash between two, whatever
   stood around and between them, cut at 32 characters; "mutation" for a name without words.
   */
  lemma SanitizedIsHyphenated(pieces: seq<(string, string)>, tail: string)
    requires ArePieces(pieces) && IsJunk(tail)
    ensures SanitizeOperation(Sentence(pieces, tail)) ==
      if pieces == [] then "mutation" else if |Hyphenated(pieces)| <= 32 then Hyphenated(pieces) else Hyphenated(pieces)[..32]
  {
    hide Dashed, ArePieces, IsJunk, DropDashes, DropTrailingDashes;
    if pieces == [] {
      assert Sentence(pieces, tail) == tail;
      DashedTail(tail);
      DropLoneDash();
    } else {
      DashedSentence(pieces, tail);
      HyphenatedEnds(pieces);
      hide Sentence, Hyphenated;
      DropOuter(Dash(pieces[0].0), Hyphenated(pieces), Dash(tail));
    }
  }

  lemma DropLoneDash()
    ensures DropTrailingDashes(DropDashes("")) == "" && DropTrailingDashes(DropDashes("-")) == ""
  {
    assert "-"[1..] == "";
  }

  lemma DropFront(front: string, kept: string)
    requires (front == "" || front == "-") && kept != "" && kept[0] != '-'
    ensures DropDashes(front + kept) == kept
  {
    if front == "" {
      assert front + kept == kept;
    } else {
      assert (front + kept)[1..] == kept;
    }
  }

  lemma DropOuter(front: string, middle: string, back: string)
    requires (front == "" || front == "-") && (back == "" || back == "-")
    requires middle != "" && middle[0] != '-' && middle[|middle| - 1] != '-'
    ensures DropTrailingDashes(DropDashes(front + middle + back)) == middle
  {
    var s, kept := front + middle + back, middle + back;
    DropFront(front, kept);
    assert s == front + kept;
    hide DropDashes;
    if back == "" {
      assert kept == middle;
    } else {
      assert kept[..|middle|] == middle;
    }
  }

  /** crypto.randomUUID, or the sixteen random bytes in hex when that throws. */
  predicate IsSuffix(s: string) {
    IsUuidV4(s) || (|s| == 32 && AllHex(s))
  }

  type Suffix = s: string | IsSuffix(s) witness "00000000000000000000000000000000"

  /** createIdempotencyKeyForOperation */
  function KeyForOperation(lowered: string, suffix: Suffix): string {
    "sl-cli-" + SanitizeOperation(lowered) + "-" + suffix
  }

  lemma PrefixedForm(op: string, suffix: string)
    requires 1 <= |op| <= 32 && AllKeyChars(op) && IsUuidV4(suffix)
    ensures IsPrefixedUuid("sl-cli-" + op + "-" + suffix)
  {
    var key := "sl-cli-" + op + "-" + suffix;
    assert |suffix| == 36;
    hide IsUuidV4;
    assert key[|key| - 36..] == suffix;
    var middle := "l-cli-" + op;
    assert AllKeyChars(middle);
    hide AllKeyChars;
    assert key == "s" + middle + ("-" + suffix);
    assert key[1..|key| - 37] == middle;
  }

  lemma BuiltKeyIsPlain(op: string, suffix: Suffix)
    requires AllKeyChars(op)
    ensures AllKeyChars("sl-cli-" + op + "-" + suffix)
  {
    if IsUuidV4(suffix) {
      UuidIsPlain(suffix);
    }
    assert AllKeyChars(suffix);
    hide IsUuidV4;
    assert AllKeyChars("sl-cli-");
  }

  /** Every key built for an operation passes the check, and has the prefixed-UUID form when the suffix is a UUID. */
  lemma BuiltKeyIsValid(lowered: string, suffix: Suffix)
    ensures IsValidKey(KeyForOperation(lowered, suffix))
    ensures Trim(KeyForOperation(lowered, suffix)) == KeyForOperation(lowered, suffix) != ""
    ensures IsUuidV4(suffix) ==> IsPrefixedUuid(KeyForOperation(lowered, suffix))
  {
    hide IsUuidV4, IsPrefixedUuid, IsValidKey, SanitizeOperation, Trim;
    var op := SanitizeOperation(lowered);
    var key := KeyForOperation(lowered, suffix);
    SanitizedIsPlain(lowered);
    BuiltKeyIsPlain(op, suffix);
    if IsUuidV4(suffix) {
      PrefixedForm(op, suffix);
    }
    assert |suffix| >= 32 by { SuffixIsLong(suffix); }
    assert key[0] in key && key[|key| - 1] in key;
    TrimKeepsTrimmed(key);
    ValidKeyIff(key);
  }

  lemma SuffixIsLong(suffix: Suffix)
    ensures |suffix| >= 32
  {
  }

  // ---------------------------------------------------------------- which key goes out

  /** The key requestJson checks: its own option first, else the caller's header. */
  function CheckedKey(option: string, header: string): string {
    if Trim(option) != "" then Trim(option) else Trim(header)
  }

  /** The key on the wire: applyIdempotencyKey leaves a header that is already there alone. */
  function SentKey(option: string, header: string): string {
    if Trim(header) != "" then Trim(header) else CheckedKey(option, header)
  }

  /** The key sent is the key checked exactly when the option and the header do not contradict each other. */
  lemma SentKeyIsCheckedIff(option: string, header: string)
    ensures SentKey(option, header) == CheckedKey(option, header) <==>
      Trim(option) == "" || Trim(header) == "" || Trim(option) == Trim(header)
  {
  }
}

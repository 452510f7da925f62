/**
 The path check (module UrlPath) and the URL parser (module UrlParser) are defined apart from each
 other, each with its own tests of characters. Here they are proved to see the same path.
 */
module UrlAgreement {
  import opened Text
  import opened UrlPath
  import opened UrlParser

  lemma SameCharacters(c: char)
    ensures IsSlash(c) <==> IsSeparator(c)
    ensures IsAlpha(c) <==> IsLetter(c)
  {
  }

  // ---------------------------------------------------------------- the same text

  lemma {:induction false} DropAppend(a: string, b: string)
    ensures DropTabsAndNewlines(a + b) == DropTabsAndNewlines(a) + DropTabsAndNewlines(b)
    decreases |a|
  {
    if a == "" {
      assert a + b == b;
    } else {
      assert (a + b)[1..] == a[1..] + b;
      DropAppend(a[1..], b);
    }
  }

  lemma DropOne(c: char)
    ensures DropTabsAndNewlines([c]) == if c == '\t' || c == '\n' || c == '\r' then "" else [c]
  {
    assert [c][1..] == "";
    assert DropTabsAndNewlines("") == "";
  }

  lemma TrimOuter(c: char, s: string)
    requires c as int <= 0x20
    ensures TrimControls([c] + s) == TrimControls(s)
    ensures TrimControls(s + [c]) == TrimControls(s)
  {
    assert ([c] + s)[1..] == s;
    TrimLast(c, s);
  }

  lemma {:induction false} TrimLast(c: char, s: string)
    requires c as int <= 0x20
    ensures TrimControls(s + [c]) == TrimControls(s)
    decreases |s|
  {
    var t := s + [c];
    if s == "" {
      assert t[1..] == "";
    } else if s[0] as int <= 0x20 {
      assert t[1..] == s[1..] + [c];
      TrimLast(c, s[1..]);
    } else {
      assert t[..|t| - 1] == s;
    }
  }

  /** A text with an ordinary character at both ends keeps one there when tabs and newlines go. */
  lemma {:induction false} DropKeepsEnds(s: string)
    requires s != "" ==> s[0] as int > 0x20 && s[|s| - 1] as int > 0x20
    ensures TrimControls(DropTabsAndNewlines(s)) == DropTabsAndNewlines(s)
  {
    if |s| == 1 {
      DropOne(s[0]);
      assert s == [s[0]];
    } else if s != "" {
      var middle := s[1..|s| - 1];
      assert s == [s[0]] + middle + [s[|s| - 1]];
      DropAppend([s[0]] + middle, [s[|s| - 1]]);
      DropAppend([s[0]], middle);
      DropOne(s[0]);
      DropOne(s[|s| - 1]);
    }
  }

  /** It does not matter which is dropped first, the outer controls or the tabs and newlines. */
  lemma {:induction false} DropAndTrimCommute(s: string)
    ensures CleanText(s) == DropTabsAndNewlines(TrimControls(s))
    decreases |s|
  {
    if s != "" && s[0] as int <= 0x20 {
      assert s == [s[0]] + s[1..];
      DropAppend([s[0]], s[1..]);
      DropOne(s[0]);
      DropAndTrimCommute(s[1..]);
      var rest := DropTabsAndNewlines(s[1..]);
      assert "" + rest == rest;
      TrimOuter(s[0], rest);
    } else if s != "" && s[|s| - 1] as int <= 0x20 {
      var n := |s| - 1;
      assert s == s[..n] + [s[n]];
      DropAppend(s[..n], [s[n]]);
      DropOne(s[n]);
      DropAndTrimCommute(s[..n]);
      var front := DropTabsAndNewlines(s[..n]);
      assert front + "" == front;
      TrimOuter(s[n], front);
    } else {
      DropKeepsEnds(s);
    }
  }

  lemma {:induction false} StripIsTrim(s: string)
    ensures StripTrailing(StripLeading(s)) == TrimControls(s)
    decreases |s|
  {
    if s != "" && s[0] as int <= 0x20 {
      StripIsTrim(s[1..]);
    } else {
      StripTrailingIsTrim(s);
    }
  }

  lemma {:induction false} StripTrailingIsTrim(s: string)
    requires s != "" ==> s[0] as int > 0x20
    ensures StripTrailing(s) == TrimControls(s)
    decreases |s|
  {
    if s != "" && s[|s| - 1] as int <= 0x20 {
      StripTrailingIsTrim(s[..|s| - 1]);
    }
  }

  lemma {:induction false} WithoutIsDrop(s: string)
    ensures WithoutTabsAndNewlines(s) == DropTabsAndNewlines(s)
  {
    if s != "" {
      WithoutIsDrop(s[1..]);
      assert "" + WithoutTabsAndNewlines(s[1..]) == WithoutTabsAndNewlines(s[1..]);
    }
  }

  lemma CleanIsPreprocess(s: string)
    ensures CleanText(s) == Preprocess(s)
  {
    DropAndTrimCommute(s);
    StripIsTrim(s);
    WithoutIsDrop(TrimControls(s));
  }

  /** What comes after the scheme's colon, when there is one. */
  lemma {:induction false} SchemeAgrees(hostOk: string -> bool, buffer: string, s: string)
    ensures Scheme(hostOk, buffer, s).Some? ==>
      && SchemeLength(s) < |s| && s[SchemeLength(s)] == ':'
      && Scheme(hostOk, buffer, s) == AuthoritySlashes(hostOk, s[SchemeLength(s) + 1..])
    decreases |s|
  {
    if s != "" {
      SameCharacters(s[0]);
    }
    if s != "" && IsSchemeChar(s[0]) {
      SchemeAgrees(hostOk, buffer + [s[0]], s[1..]);
      if Scheme(hostOk, buffer, s).Some? {
        assert s[1..][SchemeLength(s[1..]) + 1..] == s[SchemeLength(s) + 1..];
      }
    }
  }

  lemma {:induction false} SlashesAgree(hostOk: string -> bool, s: string)
    ensures IgnoreSlashes(hostOk, s) == Authority(hostOk, "", SkipSeparators(s))
    ensures AuthoritySlashes(hostOk, s) == IgnoreSlashes(hostOk, s)
    decreases |s|
  {
    if s != "" && IsSlash(s[0]) {
      SlashesAgree(hostOk, s[1..]);
      if |s| > 1 && s[0] == '/' && s[1] == '/' {
        assert s[1..][1..] == s[2..];
      }
    }
  }

  lemma {:induction false} AuthorityAgrees(hostOk: string -> bool, buffer: string, s: string)
    ensures Authority(hostOk, buffer, s).Some? ==> Authority(hostOk, buffer, s) == Some(PathStart(SkipAuthority(s)))
    decreases |s|
  {
    if !EndsAuthority(s) {
      AuthorityAgrees(hostOk, buffer + [s[0]], s[1..]);
    }
  }

  // ---------------------------------------------------------------- which texts are URLs

  datatype Parts = Parts(scheme: string, slashes: string, authority: string, tail: string)

  /** The parts of an http(s) URL: any number of slashes of either kind stand before the authority. */
  ghost predicate IsUrl(text: string, u: Parts) {
    && text == u.scheme + ":" + u.slashes + u.authority + u.tail
    && (Lower(u.scheme) == "http" || Lower(u.scheme) == "https")
    && (forall i | 0 <= i < |u.slashes| :: u.slashes[i] == '/' || u.slashes[i] == '\\')
    && (forall i | 0 <= i < |u.authority| :: u.authority[i] !in {'/', '\\', '?', '#'})
    && (u.tail == "" || u.tail[0] in {'?', '#'} || (u.authority != "" && u.tail[0] in {'/', '\\'}))
  }

  lemma HttpIsPlain(scheme: string)
    requires Lower(scheme) == "http" || Lower(scheme) == "https"
    ensures scheme != "" && forall i | 0 <= i < |scheme| :: IsAlpha(scheme[i]) && IsSchemeChar(scheme[i])
  {
    assert |scheme| == |Lower(scheme)|;
    forall i | 0 <= i < |scheme| ensures IsAlpha(scheme[i]) {
      assert 'a' <= Lower(scheme)[i] <= 'z';
    }
  }

  lemma {:induction false} SchemeIsRead(hostOk: string -> bool, buffer: string, a: string, rest: string)
    requires IsHttp(buffer + a) && forall i | 0 <= i < |a| :: IsSchemeChar(a[i])
    ensures Scheme(hostOk, buffer, a + (":" + rest)) == AuthoritySlashes(hostOk, rest)
    decreases |a|
  {
    hide IsHttp, AuthoritySlashes;
    var s := a + (":" + rest);
    if a == "" {
      assert s == ":" + rest && s[1..] == rest && buffer + a == buffer;
    } else {
      assert s[0] == a[0] && s[1..] == a[1..] + (":" + rest);
      assert buffer + a == buffer + [a[0]] + a[1..];
      SchemeIsRead(hostOk, buffer + [a[0]], a[1..], rest);
    }
  }

  lemma {:induction false} SlashesAreSkipped(slashes: string, rest: string)
    requires (forall i | 0 <= i < |slashes| :: slashes[i] == '/' || slashes[i] == '\\') && (rest == "" || rest[0] !in {'/', '\\'})
    ensures SkipSeparators(slashes + rest) == rest
    decreases |slashes|
  {
    if slashes == "" {
      assert slashes + rest == rest;
    } else {
      assert (slashes + rest)[1..] == slashes[1..] + rest;
      SlashesAreSkipped(slashes[1..], rest);
    }
  }

  lemma {:induction false} AuthorityIsRead(hostOk: string -> bool, buffer: string, a: string, tail: string)
    requires (forall i | 0 <= i < |a| :: a[i] !in {'/', '\\', '?', '#'}) && EndsAuthority(tail)
    ensures Authority(hostOk, buffer, a + tail) == if hostOk(buffer + a) then Some(PathStart(tail)) else None
    decreases |a|
  {
    hide PathStart;
    if a == "" {
      assert a + tail == tail && buffer + a == buffer;
    } else {
      assert (a + tail)[1..] == a[1..] + tail && buffer + a == buffer + [a[0]] + a[1..];
      AuthorityIsRead(hostOk, buffer + [a[0]], a[1..], tail);
    }
  }

  /** A text made of the parts of a URL fails only by its authority. */
  lemma UrlIsParsed(hostOk: string -> bool, text: string, u: Parts)
    requires IsUrl(text, u)
    ensures SchemeStart(hostOk, text) == if hostOk(u.authority) then Some(PathStart(u.tail)) else None
  {
    hide *;
    PartsHold(text, u);
    HttpIsPlain(u.scheme);
    var after := u.authority + u.tail;
    StartOfScheme(hostOk, u.scheme, u.slashes + after);
    SlashesAgree(hostOk, u.slashes + after);
    SlashesAreSkipped(u.slashes, after);
    AuthorityIsRead(hostOk, "", u.authority, u.tail);
  }

  lemma PartsHold(text: string, u: Parts)
    requires IsUrl(text, u)
    ensures text == u.scheme + (":" + (u.slashes + (u.authority + u.tail)))
    ensures IsHttp(u.scheme) && (Lower(u.scheme) == "http" || Lower(u.scheme) == "https")
    ensures (forall i | 0 <= i < |u.slashes| :: u.slashes[i] == '/' || u.slashes[i] == '\\') && (forall i | 0 <= i < |u.authority| :: u.authority[i] !in {'/', '\\', '?', '#'})
    ensures var after := u.authority + u.tail; after == "" || after[0] !in {'/', '\\'}
    ensures EndsAuthority(u.tail) && "" + u.authority == u.authority
  {
    hide Lower;
    if u.authority != "" {
      assert (u.authority + u.tail)[0] == u.authority[0];
    } else {
      assert u.authority + u.tail == u.tail;
    }
  }

  lemma StartOfScheme(hostOk: string -> bool, scheme: string, rest: string)
    requires IsHttp(scheme) && scheme != "" && forall i | 0 <= i < |scheme| :: IsAlpha(scheme[i]) && IsSchemeChar(scheme[i])
    ensures SchemeStart(hostOk, scheme + (":" + rest)) == AuthoritySlashes(hostOk, rest)
  {
    hide IsHttp, AuthoritySlashes, Scheme;
    assert scheme == [scheme[0]] + scheme[1..];
    assert (scheme + (":" + rest))[1..] == scheme[1..] + (":" + rest);
    SchemeIsRead(hostOk, [scheme[0]], scheme[1..], rest);
  }

  lemma {:induction false} SchemeWas(hostOk: string -> bool, buffer: string, s: string) returns (a: string, rest: string)
    requires Scheme(hostOk, buffer, s).Some?
    ensures s == a + ":" + rest && IsHttp(buffer + a) && AuthoritySlashes(hostOk, rest).Some?
    decreases |s|
  {
    hide IsHttp, AuthoritySlashes;
    if IsSchemeChar(s[0]) {
      a, rest := SchemeWas(hostOk, buffer + [s[0]], s[1..]);
      assert buffer + [s[0]] + a == buffer + ([s[0]] + a);
      a := [s[0]] + a;
    } else {
      a, rest := "", s[1..];
      assert buffer + a == buffer;
    }
  }

  lemma {:induction false} SlashesWere(s: string) returns (slashes: string)
    ensures s == slashes + SkipSeparators(s) && forall i | 0 <= i < |slashes| :: slashes[i] == '/' || slashes[i] == '\\'
    ensures SkipSeparators(s) == "" || SkipSeparators(s)[0] !in {'/', '\\'}
    decreases |s|
  {
    if s != "" && IsSeparator(s[0]) {
      var more := SlashesWere(s[1..]);
      slashes := [s[0]] + more;
      assert s == [s[0]] + s[1..] && slashes + SkipSeparators(s) == [s[0]] + (more + SkipSeparators(s[1..]));
    } else {
      slashes := "";
    }
  }

  lemma {:induction false} AuthorityWas(hostOk: string -> bool, buffer: string, s: string) returns (a: string, tail: string)
    requires Authority(hostOk, buffer, s).Some?
    ensures s == a + tail && hostOk(buffer + a) && EndsAuthority(tail) && forall i | 0 <= i < |a| :: a[i] !in {'/', '\\', '?', '#'}
    ensures Authority(hostOk, buffer, s) == Some(PathStart(tail))
    decreases |s|
  {
    hide PathStart;
    if EndsAuthority(s) {
      a, tail := "", s;
      assert buffer + a == buffer;
    } else {
      a, tail := AuthorityWas(hostOk, buffer + [s[0]], s[1..]);
      assert buffer + [s[0]] + a == buffer + ([s[0]] + a);
      a := [s[0]] + a;
    }
  }

  lemma PartsWere(hostOk: string -> bool, text: string) returns (u: Parts)
    requires SchemeStart(hostOk, text).Some?
    ensures IsUrl(text, u) && hostOk(u.authority) && SchemeStart(hostOk, text) == Some(PathStart(u.tail))
  {
    var a, rest := SchemeWas(hostOk, [text[0]], text[1..]);
    var scheme := [text[0]] + a;
    assert text == scheme + ":" + rest;
    assert Lower(scheme) == "http" || Lower(scheme) == "https";
    hide *;
    SlashesAgree(hostOk, rest);
    var slashes := SlashesWere(rest);
    var after := SkipSeparators(rest);
    var authority, tail := AuthorityWas(hostOk, "", after);
    u := Parts(scheme, slashes, authority, tail);
    PartsFit(text, u, after);
    UrlIsParsed(hostOk, text, u);
  }

  lemma PartsFit(text: string, u: Parts, after: string)
    requires text == u.scheme + ":" + (u.slashes + after) && after == u.authority + u.tail
    requires Lower(u.scheme) == "http" || Lower(u.scheme) == "https"
    requires (forall i | 0 <= i < |u.slashes| :: u.slashes[i] == '/' || u.slashes[i] == '\\') && (forall i | 0 <= i < |u.authority| :: u.authority[i] !in {'/', '\\', '?', '#'})
    requires EndsAuthority(u.tail) && (after == "" || after[0] !in {'/', '\\'})
    ensures IsUrl(text, u) && "" + u.authority == u.authority
  {
    hide Lower;
    assert text == u.scheme + ":" + u.slashes + u.authority + u.tail;
    assert u.authority == "" ==> after == u.tail;
  }

  /** The parser accepts exactly the URLs whose authority is in order, and reads their path from what follows it. */
  lemma ParsedIff(hostOk: string -> bool, url: string, p: Parsed)
    ensures Parse(hostOk, url) == Some(p) <==>
      exists u: Parts :: IsUrl(Preprocess(url), u) && hostOk(u.authority) && p == PathStart(u.tail)
  {
    var text := Preprocess(url);
    if Parse(hostOk, url) == Some(p) {
      var u := PartsWere(hostOk, text);
    }
    hide *;
    if u: Parts :| IsUrl(text, u) && hostOk(u.authority) && p == PathStart(u.tail) {
      UrlIsParsed(hostOk, text, u);
      ParseIs(hostOk, url);
    }
  }

  lemma ParseIs(hostOk: string -> bool, url: string)
    ensures Parse(hostOk, url) == SchemeStart(hostOk, Preprocess(url))
  {
  }

  /** What the path state makes of the segments of a text, the first of which is partly read. */
  function Ended(p: Parsed, segments: seq<string>): Parsed {
    p.(raw := p.raw + segments, resolved := ResolveDots(p.resolved, segments))
  }

  /** Dot segments are resolved one by one. */
  function ResolveDots(path: seq<string>, segments: seq<string>): seq<string>
    decreases |segments|
  {
    if segments == [] then path else ResolveDots(ResolveOne(path, segments[0], |segments| == 1), segments[1..])
  }

  lemma EndedOne(p: Parsed, segment: string, rest: seq<string>)
    requires rest != []
    ensures Ended(p, [segment] + rest) == Ended(EndSegment(p, segment, false), rest)
    ensures Ended(p, [segment]) == EndSegment(p, segment, true)
  {
    hide ResolveOne;
    var all := [segment] + rest;
    assert all[0] == segment && all[1..] == rest && [segment][1..] == [];
    assert p.raw + all == p.raw + [segment] + rest;
    assert ResolveDots(p.resolved, all) == ResolveDots(ResolveOne(p.resolved, segment, false), rest);
    assert ResolveDots(ResolveOne(p.resolved, segment, true), []) == ResolveOne(p.resolved, segment, true);
    assert ResolveDots(p.resolved, [segment]) == ResolveOne(p.resolved, segment, true);
  }

  lemma PathStep(p: Parsed, buffer: string, s: string)
    requires s != "" && s[0] != '?' && s[0] != '#'
    ensures BeforeQuery(s) == [s[0]] + BeforeQuery(s[1..])
    ensures Path(p, buffer, s) ==
      if IsSeparator(s[0]) then Path(EndSegment(p, buffer, false).(text := p.text + [s[0]]), "", s[1..])
      else Path(p.(text := p.text + [s[0]]), buffer + [s[0]], s[1..])
  {
    SameCharacters(s[0]);
    hide EndSegment;
  }

  /** A separator ends the segment in the buffer. */
  lemma SegmentEnds(p: Parsed, text: string, buffer: string, sep: char, rest: string)
    requires !HasSeparator(buffer) && IsSeparator(sep)
    ensures Ended(p, Split(buffer + ([sep] + rest))).(text := text + ([sep] + rest))
      == Ended(EndSegment(p, buffer, false), Split("" + rest)).(text := text + [sep] + rest)
  {
    hide Ended, EndSegment, Split, HasSeparator, IsSeparator;
    assert buffer + ([sep] + rest) == buffer + [sep] + rest && "" + rest == rest;
    assert text + ([sep] + rest) == text + [sep] + rest;
    SplitAcross(buffer, sep, rest);
    SplitWhole(buffer);
    EndedOne(p, buffer, Split(rest));
  }

  lemma {:induction false} PathAgrees(p: Parsed, buffer: string, s: string)
    requires !HasSeparator(buffer)
    ensures Path(p, buffer, s) == Ended(p, Split(buffer + BeforeQuery(s))).(text := p.text + BeforeQuery(s))
    decreases |s|
  {
    hide *;
    if s == "" || s[0] == '?' || s[0] == '#' {
      PathEnds(p, buffer, s);
    } else {
      PathStep(p, buffer, s);
      var c, rest := s[0], BeforeQuery(s[1..]);
      if IsSeparator(c) {
        NothingSeparates();
        PathAgrees(EndSegment(p, buffer, false).(text := p.text + [c]), "", s[1..]);
        SegmentEnds(p, p.text, buffer, c, rest);
        TextApart(EndSegment(p, buffer, false), p.text + [c], Split("" + rest));
      } else {
        NoSeparatorSnoc(buffer, c);
        PathAgrees(p.(text := p.text + [c]), buffer + [c], s[1..]);
        assert buffer + ([c] + rest) == (buffer + [c]) + rest;
        assert p.text + ([c] + rest) == (p.text + [c]) + rest;
        TextApart(p, p.text + [c], Split((buffer + [c]) + rest));
      }
    }
  }

  lemma TextApart(p: Parsed, text: string, segments: seq<string>)
    ensures Ended(p.(text := text), segments) == Ended(p, segments).(text := text)
  {
    hide ResolveDots;
  }

  lemma PathEnds(p: Parsed, buffer: string, s: string)
    requires !HasSeparator(buffer) && (s == "" || s[0] == '?' || s[0] == '#')
    ensures Path(p, buffer, s) == Ended(p, Split(buffer + BeforeQuery(s))).(text := p.text + BeforeQuery(s))
  {
    hide Ended, EndSegment, Split;
    assert buffer + "" == buffer && p.text + "" == p.text;
    SplitWhole(buffer);
    EndedOne(p, buffer, [""]);
    EndKeepsText(p, buffer);
  }

  lemma EndKeepsText(p: Parsed, buffer: string)
    ensures EndSegment(p, buffer, true).(text := p.text) == EndSegment(p, buffer, true)
  {
    hide ResolveOne;
  }

  lemma NothingSeparates()
    ensures !HasSeparator("")
  {
  }

  lemma NoSeparatorSnoc(buffer: string, c: char)
    requires !HasSeparator(buffer) && !IsSeparator(c)
    ensures !HasSeparator(buffer + [c])
  {
  }

  /** The segments the parser meets: those after the first separator, or one empty segment for an empty path. */
  function ParsedSegments(pathText: string): seq<string> {
    if pathText == "" then [""] else Split(pathText[1..])
  }

  lemma PathStartAgrees(s: string)
    requires EndsAuthority(s)
    ensures PathStart(s) == Parsed(BeforeQuery(s), ParsedSegments(BeforeQuery(s)), ResolveDots([], ParsedSegments(BeforeQuery(s))))
  {
    hide ResolveDots, ResolveOne;
    NothingSeparates();
    if s != "" && IsSlash(s[0]) {
      SameCharacters(s[0]);
      PathAgrees(Parsed([s[0]], [], []), "", s[1..]);
      var rest := BeforeQuery(s[1..]);
      assert BeforeQuery(s) == [s[0]] + rest && BeforeQuery(s)[1..] == rest && "" + rest == rest && [] + Split(rest) == Split(rest);
    } else {
      PathAgrees(Parsed("", [], []), "", s);
      SplitWhole("");
      assert [] + [""] == [""];
    }
  }

  /** Whenever the parser accepts a URL, its path is the text the check looks at, and its segments are that text's. */
  lemma ParserAgrees(hostOk: string -> bool, url: string)
    requires Parse(hostOk, url).Some?
    ensures HasScheme(CleanText(url)) && EndsPath(PathText(url))
    ensures var p, text := Parse(hostOk, url).value, PathText(url);
      p.text == text && p.raw == ParsedSegments(text) && p.resolved == ResolveDots([], ParsedSegments(text))
  {
    CleanIsPreprocess(url);
    var text := CleanText(url);
    SameCharacters(text[0]);
    hide CleanText, Preprocess, PathStart, ResolveDots, ParsedSegments;
    SchemeAgrees(hostOk, [text[0]], text[1..]);
    var n := SchemeLength(text);
    assert n == 1 + SchemeLength(text[1..]);
    var afterScheme := text[n + 1..];
    assert text[1..][n..] == afterScheme;
    SlashesAgree(hostOk, afterScheme);
    var authority := SkipSeparators(afterScheme);
    AuthorityAgrees(hostOk, "", authority);
    PathStartAgrees(SkipAuthority(authority));
  }

  /** A path text is empty or begins with a separator. */
  predicate EndsPath(text: string) {
    text == "" || IsSeparator(text[0])
  }

  lemma {:induction false} CutIsSplit(segments: seq<string>, buffer: string, s: string)
    requires !HasSeparator(buffer)
    ensures Cut(segments, buffer, s) == segments + Split(buffer + s)
    decreases |s|
  {
    if s == "" {
      assert buffer + "" == buffer;
      SplitWhole(buffer);
    } else if IsSlash(s[0]) {
      SameCharacters(s[0]);
      NothingSeparates();
      CutIsSplit(segments + [buffer], "", s[1..]);
      hide Split, HasSeparator;
      assert buffer + s == buffer + [s[0]] + s[1..] && "" + s[1..] == s[1..];
      SplitAcross(buffer, s[0], s[1..]);
      SplitWhole(buffer);
    } else {
      SameCharacters(s[0]);
      NoSeparatorSnoc(buffer, s[0]);
      CutIsSplit(segments, buffer + [s[0]], s[1..]);
      hide Split, HasSeparator;
      assert buffer + s == (buffer + [s[0]]) + s[1..];
    }
  }

  /** A text cut at slashes and backslashes. */
  function Pieces(s: string): seq<string> {
    Cut([], "", s)
  }

  lemma PiecesAreSplit(s: string)
    ensures Pieces(s) == Split(s)
  {
    NothingSeparates();
    CutIsSplit([], "", s);
    assert "" + s == s && [] + Split(s) == Split(s);
  }

  // ---------------------------------------------------------------- dot segments

  /** A first unit '.' followed by what decodes to `rest`. */
  lemma StartsWithDot(s: string, rest: string)
    requires Decode(s) == Some("." + rest)
    ensures s != "" && NextUnit(s).Some? && NextUnit(s).value.c == '.'
    ensures Decode(s[NextUnit(s).value.length..]) == Some(rest)
    ensures IsDot(s[..NextUnit(s).value.length])
  {
    assert s != "";
    var u := NextUnit(s).value;
    var tail := Decode(s[u.length..]).value;
    assert [u.c] + tail == "." + rest;
    assert ([u.c] + tail)[0] == '.' && ([u.c] + tail)[1..] == tail && ("." + rest)[1..] == rest;
    DotUnit(s);
  }

  /** A segment is a dot to the parser exactly when it decodes to one. */
  lemma DotIff(s: string)
    ensures IsDot(s) <==> Decode(s) == Some(".")
  {
    if IsDot(s) {
      WholeDot(s);
    }
    if Decode(s) == Some(".") {
      assert "." + "" == ".";
      StartsWithDot(s, "");
      var n := NextUnit(s).value.length;
      if s[n..] != "" {
        DecodeNotEmpty(s[n..]);
      }
      assert s[..n] == s;
    }
  }

  lemma WholeDot(s: string)
    requires IsDot(s)
    ensures Decode(s) == Some(".")
  {
    var n := |s|;
    assert NextUnit(s) == Some(Unit('.', n)) by {
      if IsDotEscape(s) {
        assert Escape(s, 0) == 0x2E;
      }
    }
    assert s[n..] == "" && ['.'] + "" == ".";
  }

  lemma DecodeNotEmpty(s: string)
    requires s != ""
    ensures Decode(s) != Some("")
  {
  }

  /** The only inputs that decode to a first '.' are the dot and its escape. */
  lemma DotUnit(s: string)
    requires s != "" && NextUnit(s).Some? && NextUnit(s).value.c == '.'
    ensures IsDot(s[..NextUnit(s).value.length])
  {
    if s[0] == '%' {
      var b := Escape(s, 0);
      assert b == 0x2E;
      assert HexValue(s[1]) == 2 && HexValue(s[2]) == 14;
    } else {
      assert s[..1] == ".";
    }
  }

  lemma DoubleDotIff(s: string)
    ensures IsDoubleDot(s) <==> Decode(s) == Some("..")
  {
    assert "." + "." == "..";
    if IsDoubleDot(s) {
      var i :| 0 < i < |s| && IsDot(s[..i]) && IsDot(s[i..]);
      DotIff(s[i..]);
      DotFirst(s, i);
      assert ['.'] + "." == "..";
    }
    if Decode(s) == Some("..") {
      StartsWithDot(s, ".");
      DotIff(s[NextUnit(s).value.length..]);
    }
  }

  lemma DotFirst(s: string, i: nat)
    requires 0 < i < |s| && IsDot(s[..i])
    ensures NextUnit(s) == Some(Unit('.', i))
  {
    assert s[0] == s[..i][0];
    if IsDotEscape(s[..i]) {
      assert s[1] == s[..i][1] && s[2] == s[..i][2];
      assert Escape(s, 0) == 0x2E;
    }
  }

  ghost predicate NoDots(segments: seq<string>) {
    forall i | 0 <= i < |segments| :: !IsSingleDot(segments[i]) && !IsDoubleDot(segments[i])
  }

  lemma KeepsNoDots(path: seq<string>, segment: string, last: bool)
    requires NoDots(path)
    ensures NoDots(ResolveOne(path, segment, last))
  {
    EmptyIsNoDot();
  }

  /** What the parser keeps never contains a dot segment. */
  lemma {:induction false} ResolvedHasNoDots(path: seq<string>, segments: seq<string>)
    requires NoDots(path)
    ensures NoDots(ResolveDots(path, segments))
    ensures NoDots(segments) ==> ResolveDots(path, segments) == path + segments
    decreases |segments|
  {
    if segments != [] {
      hide ResolveOne, NoDots;
      var next := ResolveOne(path, segments[0], |segments| == 1);
      KeepsNoDots(path, segments[0], |segments| == 1);
      ResolvedHasNoDots(next, segments[1..]);
      if NoDots(segments) {
        NoDotsTail(segments);
        assert next == path + [segments[0]] by { ResolvePlain(path, segments[0], |segments| == 1); }
        assert next + segments[1..] == path + segments;
      }
    }
  }

  lemma ResolveFirst(path: seq<string>, segment: string, rest: seq<string>)
    ensures ResolveDots(path, [segment] + rest) == ResolveDots(ResolveOne(path, segment, rest == []), rest)
  {
    hide ResolveOne;
    var all := [segment] + rest;
    assert all[0] == segment && all[1..] == rest;
  }

  /** A double dot takes back the segment before it, a single dot does nothing; at the end either leaves an empty segment. */
  lemma DotsMean(path: seq<string>, segment: string, dots: string, dot: string, rest: seq<string>)
    requires !IsSingleDot(segment) && !IsDoubleDot(segment) && IsDoubleDot(dots) && IsSingleDot(dot) && !IsDoubleDot(dot)
    ensures var end := if rest == [] then [""] else [];
      && ResolveDots(path, [segment] + ([dots] + rest)) == ResolveDots(path + end, rest)
      && ResolveDots(path, [dot] + rest) == ResolveDots(path + end, rest)
      && ResolveDots([], [dots] + rest) == ResolveDots(end, rest)
  {
    hide IsSingleDot, IsDoubleDot, ResolveDots;
    var end := if rest == [] then [""] else [];
    ResolveFirst(path, segment, [dots] + rest);
    ResolveFirst(path + [segment], dots, rest);
    ResolveFirst(path, dot, rest);
    ResolveFirst([], dots, rest);
    assert (path + [segment])[..|path|] == path;
    assert path + [] == path && [] + end == end;
  }

  lemma ResolvePlain(path: seq<string>, segment: string, last: bool)
    requires !IsSingleDot(segment) && !IsDoubleDot(segment)
    ensures ResolveOne(path, segment, last) == path + [segment]
  {
  }

  lemma NoDotsTail(segments: seq<string>)
    requires segments != []
    ensures NoDots(segments) <==> !IsSingleDot(segments[0]) && !IsDoubleDot(segments[0]) && NoDots(segments[1..])
  {
    hide IsSingleDot, IsDoubleDot;
    assert forall i | 1 <= i < |segments| :: segments[i] == segments[1..][i - 1];
  }

  /** Dot-segment removal leaves a path alone exactly when it has no dot segment. */
  lemma ResolveKeepsIff(segments: seq<string>)
    ensures ResolveDots([], segments) == segments <==> NoDots(segments)
  {
    ResolvedHasNoDots([], segments);
  }

  /**
   In terms of the text the check looks at: it passes exactly when resolving dot segments moves
   nothing, every segment decodes, and decoding and splitting commute.
   */
  lemma CheckedTextIff(target: string)
    requires EndsPath(PathText(target))
    ensures var path := PathText(target);
      !HasUnsafePathSegment(target) <==>
        && ResolveDots([], ParsedSegments(path)) == ParsedSegments(path)
        && Decode(path).Some?
        && Split(Decode(path).value) == DecodeEach(Split(path))
  {
    var path := PathText(target);
    SafeSegmentsIff(Split(path));
    DecodeWholePath(path);
    if AllDecode(Split(path)) {
      CommuteIff(path);
    }
    ResolveKeepsIff(ParsedSegments(path));
    EmptyIsNoDot();
    hide Decode, IsUnsafeSegment, IsSingleDot, IsDoubleDot, ResolveDots, PathText, DecodeEach;
    if path != "" {
      assert Split(path)[1..] == ParsedSegments(path);
      NoDotsTail(Split(path));
    }
  }

  /** The check, segment by segment, in the parser's terms. */
  lemma SafeSegmentsIff(segments: seq<string>)
    ensures (forall i | 0 <= i < |segments| :: !IsUnsafeSegment(segments[i])) <==>
      AllDecode(segments) && NoDots(segments) && forall i | 0 <= i < |segments| :: !HasSeparator(Decode(segments[i]).value)
  {
    forall i | 0 <= i < |segments| ensures IsUnsafeSegment(segments[i]) <==>
      Decode(segments[i]).None? || IsSingleDot(segments[i]) || IsDoubleDot(segments[i]) || HasSeparator(Decode(segments[i]).value)
    {
      DotIff(segments[i]);
      DoubleDotIff(segments[i]);
    }
    hide IsUnsafeSegment, IsSingleDot, IsDoubleDot, HasSeparator, Decode;
  }

  lemma EmptyIsNoDot()
    ensures !IsSingleDot("") && !IsDoubleDot("")
  {
  }

  /**
   For a URL the parser accepts, the check passes exactly when resolving dot segments moves nothing,
   every segment decodes, and decoding the path before or after cutting it gives the same segments.
   */
  lemma PathCheckIff(hostOk: string -> bool, url: string)
    requires Parse(hostOk, url).Some?
    ensures var p := Parse(hostOk, url).value;
      !HasUnsafePathSegment(url) <==>
        p.resolved == p.raw && Decode(p.text).Some? && Pieces(Decode(p.text).value) == DecodeEach(Pieces(p.text))
  {
    ParserAgrees(hostOk, url);
    CheckedTextIff(url);
    var p := Parse(hostOk, url).value;
    hide *;
    PiecesAreSplit(p.text);
    if Decode(p.text).Some? {
      PiecesAreSplit(Decode(p.text).value);
    }
  }

  /** Two dots between slashes or backslashes, of either kind on either side, or at the end of the path. */
  ghost predicate Climbs(path: string) {
    exists a: string, b: string, s1: char, s2: char :: s1 in {'/', '\\'} && s2 in {'/', '\\'} && Climb(path, a, s1, s2, b)
  }

  ghost predicate Climb(path: string, a: string, s1: char, s2: char, b: string) {
    path == a + [s1] + ".." + [s2] + b || path == a + [s1] + ".."
  }

  /** Such a URL never passes the check. */
  lemma ClimbingIsRefused(hostOk: string -> bool, url: string)
    requires Parse(hostOk, url).Some? && Climbs(Parse(hostOk, url).value.text)
    ensures HasUnsafePathSegment(url)
  {
    ParserAgrees(hostOk, url);
    var path := PathText(url);
    var a, b, s1, s2 :| s1 in {'/', '\\'} && s2 in {'/', '\\'} && Climb(path, a, s1, s2, b);
    var i := DotsAreASegment(path, a, s1, s2, b);
    assert IsUnsafeSegment(Split(path)[i]) by { TwoDotsUnsafe(); }
  }

  lemma TwoDotsUnsafe()
    ensures IsUnsafeSegment("..")
  {
    assert ".."[1..] == "." && "."[1..] == "";
    assert Decode("") == Some("");
    assert Decode(".") == Some(['.'] + "");
    assert Decode("..") == Some(['.'] + (['.'] + ""));
  }

  lemma DotsAreASegment(path: string, a: string, s1: char, s2: char, b: string) returns (i: nat)
    requires s1 in {'/', '\\'} && s2 in {'/', '\\'} && Climb(path, a, s1, s2, b)
    ensures i < |Split(path)| && Split(path)[i] == ".."
  {
    assert IsSeparator(s1) && IsSeparator(s2);
    i := |Split(a)|;
    NoSeparatorInDots();
    hide Split, HasSeparator, IsSeparator;
    SplitWhole("..");
    if path == a + [s1] + ".." {
      SplitAcross(a, s1, "..");
    } else {
      assert path == a + [s1] + (".." + [s2] + b);
      SplitAcross(a, s1, ".." + [s2] + b);
      SplitAcross("..", s2, b);
    }
  }

  lemma NoSeparatorInDots()
    ensures !HasSeparator("..")
  {
  }
}

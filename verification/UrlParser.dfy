/**
 The states of the URL parser that an http(s) URL goes through (section 4.4 of the WHATWG URL
 Standard), up to the end of its path. The authority is taken whole: `hostOk` says whether its user
 information, host and port parse. None is failure. Nothing here comes from the path check.
 */
module UrlParser {
  import opened Text

  /** A slash or a backslash: in a special URL both end the authority and a path segment. */
  predicate IsSlash(c: char) {
    c == '/' || c == '\\'
  }

  predicate IsAlpha(c: char) {
    0x41 <= c as int <= 0x5A || 0x61 <= c as int <= 0x7A
  }

  predicate IsSchemeChar(c: char) {
    IsAlpha(c) || 0x30 <= c as int <= 0x39 || c == '+' || c == '-' || c == '.'
  }

  predicate IsHttp(scheme: string) {
    Lower(scheme) == "http" || Lower(scheme) == "https"
  }

  // ---------------------------------------------------------------- before the states

  /** A C0 control or a space. */
  predicate IsControlOrSpace(c: char) {
    c as int <= 0x20
  }

  function StripLeading(s: string): string {
    if s != "" && IsControlOrSpace(s[0]) then StripLeading(s[1..]) else s
  }

  function StripTrailing(s: string): string {
    if s != "" && IsControlOrSpace(s[|s| - 1]) then StripTrailing(s[..|s| - 1]) else s
  }

  function WithoutTabsAndNewlines(s: string): string {
    if s == "" then ""
    else (if s[0] as int in {9, 10, 13} then "" else [s[0]]) + WithoutTabsAndNewlines(s[1..])
  }

  /** Leading and trailing controls and spaces go first, then every tab and newline. */
  function Preprocess(input: string): string {
    WithoutTabsAndNewlines(StripTrailing(StripLeading(input)))
  }

  // ---------------------------------------------------------------- dot segments

  /** The escape %2e of a dot, in either case. */
  predicate IsDotEscape(s: string) {
    |s| == 3 && s[0] == '%' && s[1] == '2' && (s[2] == 'e' || s[2] == 'E')
  }

  predicate IsDot(s: string) {
    s == "." || IsDotEscape(s)
  }

  predicate IsSingleDot(segment: string) {
    IsDot(segment)
  }

  predicate IsDoubleDot(segment: string) {
    exists i :: 0 < i < |segment| && IsDot(segment[..i]) && IsDot(segment[i..])
  }

  /** One segment in the path state of the URL parser; `path` is the result so far. */
  function ResolveOne(path: seq<string>, segment: string, last: bool): seq<string> {
    if IsDoubleDot(segment) then
      var shorter := if path == [] then [] else path[..|path| - 1];
      if last then shorter + [""] else shorter
    else if IsSingleDot(segment) then (if last then path + [""] else path)
    else path + [segment]
  }

  // ---------------------------------------------------------------- the states

  /** The path text as it stands in the URL, its segments, and what is left of them when dot segments are resolved. */
  datatype Parsed = Parsed(text: string, raw: seq<string>, resolved: seq<string>)

  function SchemeStart(hostOk: string -> bool, s: string): Option<Parsed> {
    if s != "" && IsAlpha(s[0]) then Scheme(hostOk, [s[0]], s[1..]) else None
  }

  function Scheme(hostOk: string -> bool, buffer: string, s: string): Option<Parsed>
    decreases |s|
  {
    if s == "" then None
    else if IsSchemeChar(s[0]) then Scheme(hostOk, buffer + [s[0]], s[1..])
    else if s[0] == ':' && IsHttp(buffer) then AuthoritySlashes(hostOk, s[1..])
    else None
  }

  /** special authority slashes state */
  function AuthoritySlashes(hostOk: string -> bool, s: string): Option<Parsed> {
    if |s| > 1 && s[0] == '/' && s[1] == '/' then IgnoreSlashes(hostOk, s[2..]) else IgnoreSlashes(hostOk, s)
  }

  /** special authority ignore slashes state */
  function IgnoreSlashes(hostOk: string -> bool, s: string): Option<Parsed>
    decreases |s|
  {
    if s != "" && IsSlash(s[0]) then IgnoreSlashes(hostOk, s[1..]) else Authority(hostOk, "", s)
  }

  predicate EndsAuthority(s: string) {
    s == "" || IsSlash(s[0]) || s[0] == '?' || s[0] == '#'
  }

  /** authority, host and port states */
  function Authority(hostOk: string -> bool, buffer: string, s: string): Option<Parsed>
    decreases |s|
  {
    if !EndsAuthority(s) then Authority(hostOk, buffer + [s[0]], s[1..])
    else if hostOk(buffer) then Some(PathStart(s))
    else None
  }

  /** path start state */
  function PathStart(s: string): Parsed {
    if s != "" && IsSlash(s[0]) then Path(Parsed([s[0]], [], []), "", s[1..]) else Path(Parsed("", [], []), "", s)
  }

  /** path state; `buffer` holds the segment being read. */
  function Path(p: Parsed, buffer: string, s: string): Parsed
    decreases |s|
  {
    if s == "" || s[0] == '?' || s[0] == '#' then EndSegment(p, buffer, true)
    else if IsSlash(s[0]) then Path(EndSegment(p, buffer, false).(text := p.text + [s[0]]), "", s[1..])
    else Path(p.(text := p.text + [s[0]]), buffer + [s[0]], s[1..])
  }

  function EndSegment(p: Parsed, buffer: string, last: bool): Parsed {
    p.(raw := p.raw + [buffer], resolved := ResolveOne(p.resolved, buffer, last))
  }

  /** What the parser makes of a URL's path. */
  function Parse(hostOk: string -> bool, url: string): Option<Parsed> {
    SchemeStart(hostOk, Preprocess(url))
  }

  /** Any text cut at its slashes and backslashes, character by character as the path state does it. */
  function Cut(segments: seq<string>, buffer: string, s: string): seq<string>
    decreases |s|
  {
    if s == "" then segments + [buffer]
    else if IsSlash(s[0]) then Cut(segments + [buffer], "", s[1..])
    else Cut(segments, buffer + [s[0]], s[1..])
  }
}

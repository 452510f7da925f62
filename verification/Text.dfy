/** The part of JavaScript's string library that the modelled code leans on. */
module Text {

  datatype Option<+T> = None | Some(value: T) {
    function GetOr(default: T): T {
      if Some? then value else default
    }
  }

  /** The characters String.prototype.trim removes. */
  predicate IsSpace(c: char) {
    var n := c as int;
    || 9 <= n <= 13
    || n == 0x20
    || n == 0xA0
    || n == 0x1680
    || 0x2000 <= n <= 0x200A
    || n == 0x2028
    || n == 0x2029
    || n == 0x202F
    || n == 0x205F
    || n == 0x3000
    || n == 0xFEFF
  }

  /** White space and line terminators, sections 12.2 and 12.3 of ECMA-262, one by one. */
  const SPACES := "\t\n\U{B}\U{C}\r \U{A0}\U{1680}" +
    "\U{2000}\U{2001}\U{2002}\U{2003}\U{2004}\U{2005}\U{2006}\U{2007}\U{2008}\U{2009}\U{200A}" +
    "\U{2028}\U{2029}\U{202F}\U{205F}\U{3000}\U{FEFF}"

  lemma SpaceIff(c: char)
    ensures IsSpace(c) <==> c in SPACES
  {
    if IsSpace(c) {
      var n := c as int;
      assert n == 9 || n == 10 || n == 11 || n == 12 || n == 13 || n == 0x20 || n == 0xA0 || n == 0x1680 || n >= 0x2000;
      assert 0x2000 <= n <= 0x200A ==> SPACES[n - 0x2000 + 8] == c;
    }
  }

  function TrimStart(s: string): (r: string)
    ensures r == "" || !IsSpace(r[0])
    ensures |r| <= |s|
  {
    if s == "" || !IsSpace(s[0]) then s else TrimStart(s[1..])
  }

  function TrimEnd(s: string): (r: string)
    ensures r <= s
    ensures r == "" || !IsSpace(r[|r| - 1])
  {
    if s == "" || !IsSpace(s[|s| - 1]) then s else TrimEnd(s[..|s| - 1])
  }

  function Trim(s: string): string {
    TrimEnd(TrimStart(s))
  }

  /** No white space at either end. */
  predicate Trimmed(s: string) {
    s == "" || (!IsSpace(s[0]) && !IsSpace(s[|s| - 1]))
  }

  lemma TrimIsTrimmed(s: string)
    ensures Trimmed(Trim(s))
  {
  }

  lemma TrimKeepsTrimmed(s: string)
    requires Trimmed(s)
    ensures Trim(s) == s
  {
  }

  /** Trimming twice is trimming once. */
  lemma TrimTwice(s: string)
    ensures Trim(Trim(s)) == Trim(s)
  {
    TrimKeepsTrimmed(Trim(s));
  }

  /** replace(/\\/g, "/") */
  function Slashes(s: string): (r: string)
    ensures |r| == |s|
  {
    seq(|s|, i requires 0 <= i < |s| => if s[i] == '\\' then '/' else s[i])
  }

  function LowerChar(c: char): char {
    if 'A' <= c <= 'Z' then (c as int + 32) as char else c
  }

  /** toLowerCase, for the letters that matter to the modelled comparisons. */
  function Lower(s: string): string {
    seq(|s|, i requires 0 <= i < |s| => LowerChar(s[i]))
  }

  /** Equal up to the case of letters: what lower-cases to a text of small letters. */
  lemma LowerMeans(s: string, t: string)
    requires forall i | 0 <= i < |t| :: 'a' <= t[i] <= 'z'
    ensures Lower(s) == t <==> |s| == |t| && forall i | 0 <= i < |s| :: s[i] == t[i] || s[i] as int + 32 == t[i] as int
  {
    if |s| == |t| && forall i | 0 <= i < |s| :: s[i] == t[i] || s[i] as int + 32 == t[i] as int {
      assert forall i | 0 <= i < |s| :: Lower(s)[i] == t[i];
    }
    if Lower(s) == t {
      forall i | 0 <= i < |s| ensures s[i] == t[i] || s[i] as int + 32 == t[i] as int {
        assert Lower(s)[i] == t[i];
      }
    }
  }

  /** Every backslash turned into a slash, and nothing else. */
  lemma SlashesMeans(s: string, i: nat)
    requires i < |s|
    ensures s[i] == '\\' ==> Slashes(s)[i] == '/'
    ensures s[i] != '\\' ==> Slashes(s)[i] == s[i]
  {
  }

  /** All white space. */
  ghost predicate Blank(s: string) {
    forall i | 0 <= i < |s| :: IsSpace(s[i])
  }

  lemma {:induction false} TrimStartDrops(a: string, s: string)
    requires Blank(a) && (s != "" ==> !IsSpace(s[0]))
    ensures TrimStart(a + s) == s
  {
    if a == "" {
      assert a + s == s;
    } else {
      assert (a + s)[1..] == a[1..] + s;
      TrimStartDrops(a[1..], s);
    }
  }

  lemma {:induction false} TrimEndDrops(s: string, b: string)
    requires Blank(b) && (s != "" ==> !IsSpace(s[|s| - 1]))
    ensures TrimEnd(s + b) == s
  {
    if b == "" {
      assert s + b == s;
    } else {
      assert (s + b)[..|s + b| - 1] == s + b[..|b| - 1];
      TrimEndDrops(s, b[..|b| - 1]);
    }
  }

  /** White space around a trimmed text goes, and nothing else. */
  lemma TrimDrops(a: string, s: string, b: string)
    requires Blank(a) && Blank(b) && Trimmed(s)
    ensures Trim(a + s + b) == s
  {
    if s == "" {
      assert a + s + b == (a + b) + "";
      TrimStartDrops(a + b, "");
    } else {
      assert a + s + b == a + (s + b);
      TrimStartDrops(a, s + b);
      TrimEndDrops(s, b);
    }
  }

  /** What trimming takes away is white space at the two ends. */
  lemma {:induction false} TrimSplits(s: string) returns (a: string, b: string)
    ensures s == a + Trim(s) + b && Blank(a) && Blank(b)
  {
    hide TrimStart, TrimEnd, Blank;
    a := TrimStartSplits(s);
    b := TrimEndSplits(TrimStart(s));
    assert a + (Trim(s) + b) == a + Trim(s) + b;
  }

  /** Nothing is left of a text exactly when it is all white space. */
  lemma BlankIff(s: string)
    ensures Trim(s) == "" <==> forall c | c in s :: IsSpace(c)
  {
    hide Trim;
    if Trim(s) == "" {
      var a, b := TrimSplits(s);
      assert s == a + b;
    } else {
      TrimKeepsInside(s);
    }
  }

  lemma TrimKeepsInside(s: string)
    ensures Trim(s) != "" ==> Trim(s)[0] in s && !IsSpace(Trim(s)[0])
  {
    if Trim(s) != "" {
      var a, b := TrimSplits(s);
      assert s[|a|] == Trim(s)[0];
    }
  }

  lemma {:induction false} TrimStartSplits(s: string) returns (a: string)
    ensures s == a + TrimStart(s) && Blank(a)
  {
    if s == "" || !IsSpace(s[0]) {
      a := "";
    } else {
      a := TrimStartSplits(s[1..]);
      a := [s[0]] + a;
    }
  }

  lemma {:induction false} TrimEndSplits(s: string) returns (b: string)
    ensures s == TrimEnd(s) + b && Blank(b)
  {
    if s == "" || !IsSpace(s[|s| - 1]) {
      b := "";
    } else {
      b := TrimEndSplits(s[..|s| - 1]);
      b := b + [s[|s| - 1]];
    }
  }

  /** What stands before the first separator, and after it. */
  lemma {:induction false} JoinedApart(a: string, x: string, b: string, y: string, sep: char)
    requires sep !in a && sep !in b
    ensures a + [sep] + x == b + [sep] + y <==> a == b && x == y
    decreases |a|
  {
    var left, right := a + [sep] + x, b + [sep] + y;
    if a == "" || b == "" {
      assert a == "" ==> left[0] == sep && left[1..] == x;
      assert b == "" ==> right[0] == sep && right[1..] == y;
      assert a != "" ==> left[0] == a[0] && a[0] in a;
      assert b != "" ==> right[0] == b[0] && b[0] in b;
    } else {
      assert left[0] == a[0] && left[1..] == a[1..] + [sep] + x;
      assert right[0] == b[0] && right[1..] == b[1..] + [sep] + y;
      JoinedApart(a[1..], x, b[1..], y, sep);
      assert a == [a[0]] + a[1..] && b == [b[0]] + b[1..];
      assert left == [left[0]] + left[1..] && right == [right[0]] + right[1..];
    }
  }

  function Flatten<T>(parts: seq<seq<T>>): seq<T> {
    if parts == [] then [] else parts[0] + Flatten(parts[1..])
  }

  lemma FlattenAppend<T>(a: seq<seq<T>>, b: seq<seq<T>>)
    ensures Flatten(a + b) == Flatten(a) + Flatten(b)
  {
    if a == [] {
      assert a + b == b;
    } else {
      assert (a + b)[1..] == a[1..] + b;
      FlattenAppend(a[1..], b);
    }
  }

  lemma FlattenSnoc<T>(a: seq<seq<T>>, last: seq<T>)
    ensures Flatten(a + [last]) == Flatten(a) + last
  {
    FlattenAppend(a, [last]);
    assert Flatten([last]) == last + Flatten<T>([]);
  }
}

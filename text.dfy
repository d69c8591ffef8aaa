/**
 * String operations used by the C++ and Python sources: substring search
 * (C++ std::string::find, Python str.find), Python's str.split with a
 * one-character separator, decimal printing of unsigned integers
 * (operator<< on an unsigned int) and Python's int() on a plain decimal
 * literal.
 */
module Text {
  import opened Wrappers

  /** The position of the first c in s, or |s| when c does not occur. */
  function FirstIndex(s: string, c: char): (i: nat)
    ensures i <= |s|
    ensures i < |s| ==> s[i] == c
    ensures forall j :: 0 <= j < i ==> s[j] != c
  {
    if s == [] then 0 else if s[0] == c then 0 else 1 + FirstIndex(s[1..], c)
  }

  /** The text before the first c (all of s when c does not occur). */
  function UpTo(s: string, c: char): (r: string)
    ensures r <= s && c !in r
    ensures |r| < |s| ==> s[|r|] == c
  {
    s[..FirstIndex(s, c)]
  }

  /** Number of occurrences of c in s. */
  function CountChar(s: string, c: char): nat
  {
    if s == [] then 0 else (if s[0] == c then 1 else 0) + CountChar(s[1..], c)
  }

  /** Python's s.split(c) for a one-character separator: at least one part, empty parts kept. */
  function Split(s: string, c: char): (parts: seq<string>)
    ensures |parts| >= 1
    decreases |s|
  {
    var i := FirstIndex(s, c);
    if i == |s| then [s] else [s[..i]] + Split(s[i + 1..], c)
  }

  /** Python's c.join(parts). */
  function Join(parts: seq<string>, c: char): string
  {
    if |parts| == 0 then "" else if |parts| == 1 then parts[0] else parts[0] + [c] + Join(parts[1..], c)
  }

  /** Splitting never leaves a separator inside a part. */
  lemma {:induction false} SplitPartsFree(s: string, c: char)
    ensures forall k :: 0 <= k < |Split(s, c)| ==> c !in Split(s, c)[k]
    decreases |s|
  {
    var i := FirstIndex(s, c);
    if i < |s| {
      SplitPartsFree(s[i + 1..], c);
      assert c !in s[..i];
    }
  }

  /** Joining the parts with the separator gives the original text back. */
  lemma {:induction false} JoinSplit(s: string, c: char)
    ensures Join(Split(s, c), c) == s
    decreases |s|
  {
    var i := FirstIndex(s, c);
    if i < |s| {
      var rest := Split(s[i + 1..], c);
      assert Split(s, c) == [s[..i]] + rest;
      JoinSplit(s[i + 1..], c);
      JoinCons(s[..i], rest, c);
      assert s == s[..i] + [c] + s[i + 1..];
    }
  }

  /** Joining a first part onto further parts puts one separator between them. */
  lemma JoinCons(x: string, parts: seq<string>, c: char)
    requires |parts| >= 1
    ensures Join([x] + parts, c) == x + [c] + Join(parts, c)
  {
    assert ([x] + parts)[1..] == parts;
  }

  /** There is one more part than there are separators. */
  lemma {:induction false} SplitCount(s: string, c: char)
    ensures |Split(s, c)| == CountChar(s, c) + 1
    decreases |s|
  {
    var i := FirstIndex(s, c);
    CountPrefixFree(s, c, i);
    if i < |s| {
      SplitCount(s[i + 1..], c);
    }
  }

  /** The occurrences of c in s split around position i when s[..i] holds none. */
  lemma {:induction false} CountPrefixFree(s: string, c: char, i: nat)
    requires i <= |s|
    requires forall j :: 0 <= j < i ==> s[j] != c
    ensures CountChar(s, c) == if i < |s| && s[i] == c then 1 + CountChar(s[i + 1..], c) else CountChar(s[i..], c)
    decreases i
  {
    if i > 0 {
      CountPrefixFree(s[1..], c, i - 1);
      assert s[1..][i - 1..] == s[i..];
      if i < |s| { assert s[1..][i..] == s[i + 1..]; }
    }
  }

  /** The parts of a text built by joining separator-free parts are those parts. */
  lemma {:induction false} SplitJoin(parts: seq<string>, c: char)
    requires |parts| >= 1
    requires forall k :: 0 <= k < |parts| ==> c !in parts[k]
    ensures Split(Join(parts, c), c) == parts
  {
    if |parts| > 1 {
      var rest := Join(parts[1..], c);
      assert Join(parts, c) == parts[0] + [c] + rest;
      SplitCons(parts[0], rest, c);
      SplitJoin(parts[1..], c);
      assert parts == [parts[0]] + parts[1..];
    } else {
      FirstIndexAfterFree(parts[0], [], c);
      assert parts[0] + [] == parts[0];
    }
  }

  /** A separator-free first part followed by a separator is the first part of the split. */
  lemma SplitCons(a: string, rest: string, c: char)
    requires c !in a
    ensures Split(a + [c] + rest, c) == [a] + Split(rest, c)
  {
    var s := a + [c] + rest;
    FirstIndexAfterFree(a, [c] + rest, c);
    assert s == a + ([c] + rest);
    assert s[..|a|] == a;
    assert s[|a| + 1..] == rest;
  }

  /** The first c of a + b lies in b when a has none. */
  lemma {:induction false} FirstIndexAfterFree(a: string, b: string, c: char)
    requires c !in a
    ensures FirstIndex(a + b, c) == |a| + FirstIndex(b, c)
  {
    if a != [] {
      assert (a + b)[1..] == a[1..] + b;
      FirstIndexAfterFree(a[1..], b, c);
    } else {
      assert a + b == b;
    }
  }

  /** A text made of two separator-free parts around one separator splits into those two parts. */
  lemma SplitTwo(a: string, b: string, c: char)
    requires c !in a && c !in b
    ensures Split(a + [c] + b, c) == [a, b]
  {
    SplitJoin([a, b], c);
    assert [a, b][1..] == [b];
  }

  /** C++ s.find(sub) != npos and Python s.find(sub) >= 0. */
  predicate Contains(s: string, sub: string)
  {
    exists i :: 0 <= i <= |s| - |sub| && sub <= s[i..]
  }

  /** A text contains every text it starts with or ends with. */
  lemma ContainsAt(s: string, sub: string, i: nat)
    requires i + |sub| <= |s| && s[i..i + |sub|] == sub
    ensures Contains(s, sub)
  {
    assert sub <= s[i..];
  }

  /** Text added at the end keeps what a text contains. */
  lemma ContainsExtended(a: string, b: string, sub: string)
    requires Contains(a, sub)
    ensures Contains(a + b, sub)
  {
    var i :| 0 <= i <= |a| - |sub| && sub <= a[i..];
    assert (a + b)[i..i + |sub|] == a[i..i + |sub|];
    ContainsAt(a + b, sub, i);
  }

  /** A path joined onto a directory contains what the directory contains. */
  lemma ContainsJoined(dir: string, name: string, sub: string)
    requires Contains(dir, sub) && |name| > 0 && name[0] != '/'
    ensures Contains(PathJoin(dir, name), sub)
  {
    if dir == [] || dir[|dir| - 1] == '/' {
      ContainsExtended(dir, name, sub);
    } else {
      ContainsExtended(dir, "/" + name, sub);
      assert PathJoin(dir, name) == dir + ("/" + name);
    }
  }

  predicate IsDigit(ch: char) { '0' <= ch <= '9' }

  function DigitChar(d: nat): (ch: char)
    requires d < 10
    ensures IsDigit(ch)
  {
    ['0', '1', '2', '3', '4', '5', '6', '7', '8', '9'][d]
  }

  function DigitValue(ch: char): nat
    requires IsDigit(ch)
  {
    (ch as int - '0' as int) as nat
  }

  /** Decimal representation of n without leading zeros, as operator<< prints an unsigned integer. */
  function NatToString(n: nat): (s: string)
    ensures |s| >= 1 && forall k :: 0 <= k < |s| ==> IsDigit(s[k])
  {
    if n < 10 then [DigitChar(n)] else NatToString(n / 10) + [DigitChar(n % 10)]
  }

  /** The value of a non-empty string of decimal digits. */
  function DigitsValue(s: string): nat
    requires forall k :: 0 <= k < |s| ==> IsDigit(s[k])
  {
    if s == [] then 0 else DigitsValue(s[..|s| - 1]) * 10 + DigitValue(s[|s| - 1])
  }

  /** The blanks C's isspace accepts: space, tab, line feed, vertical tab, form feed, carriage return. */
  predicate IsSpace(ch: char) { ch == ' ' || '\t' <= ch <= '\r' }

  /** A non-empty run of decimal digits. */
  predicate IsDigits(s: string) { |s| >= 1 && forall k :: 0 <= k < |s| ==> IsDigit(s[k]) }

  /** s without its leading blanks. */
  function TrimLeft(s: string): (t: string)
    ensures t == [] || !IsSpace(t[0])
  {
    if s != [] && IsSpace(s[0]) then TrimLeft(s[1..]) else s
  }

  /** s without its trailing blanks. */
  function TrimRight(s: string): (t: string)
    ensures t == [] || !IsSpace(t[|t| - 1])
  {
    if s != [] && IsSpace(s[|s| - 1]) then TrimRight(s[..|s| - 1]) else s
  }

  /**
   * Python 2's int(s) on a str, base 10: blanks around the literal, an
   * optional sign that blanks may follow, then at least one decimal digit;
   * every other text raises (None).
   */
  function ParseInt(s: string): (r: Option<int>)
  {
    ParseTrimmed(TrimRight(TrimLeft(s)))
  }

  /** int() on the literal once the surrounding blanks are gone. */
  function ParseTrimmed(t: string): Option<int>
  {
    if |t| >= 1 && (t[0] == '+' || t[0] == '-') then
      var d := TrimLeft(t[1..]);
      if IsDigits(d) then Some(if t[0] == '-' then -(DigitsValue(d) as int) else DigitsValue(d)) else None
    else if IsDigits(t) then Some(DigitsValue(t))
    else None
  }

  /** Blanks in front of a text are dropped and the rest is kept. */
  lemma {:induction false} TrimLeftBlanks(w: string, s: string)
    requires forall k :: 0 <= k < |w| ==> IsSpace(w[k])
    requires s == [] || !IsSpace(s[0])
    ensures TrimLeft(w + s) == s
  {
    if w != [] {
      assert (w + s)[1..] == w[1..] + s;
      TrimLeftBlanks(w[1..], s);
    }
  }

  /** Blanks after a text are dropped and the rest is kept. */
  lemma {:induction false} TrimRightBlanks(s: string, w: string)
    requires forall k :: 0 <= k < |w| ==> IsSpace(w[k])
    requires s == [] || !IsSpace(s[|s| - 1])
    ensures TrimRight(s + w) == s
  {
    if w != [] {
      assert (s + w)[..|s + w| - 1] == s + w[..|w| - 1];
      TrimRightBlanks(s, w[..|w| - 1]);
    }
  }

  /** int() reads a run of digits between any blanks. */
  lemma ParseIntPadded(w1: string, d: string, w3: string)
    requires forall k :: 0 <= k < |w1| ==> IsSpace(w1[k])
    requires forall k :: 0 <= k < |w3| ==> IsSpace(w3[k])
    requires IsDigits(d)
    ensures ParseInt(w1 + d + w3) == Some(DigitsValue(d))
  {
    assert w1 + d + w3 == w1 + (d + w3);
    TrimLeftBlanks(w1, d + w3);
    TrimRightBlanks(d, w3);
    assert TrimRight(TrimLeft(w1 + d + w3)) == d;
    assert ParseTrimmed(d) == Some(DigitsValue(d));
  }

  /** A sign in front of the digits, blanks allowed after it, gives the signed value. */
  lemma ParseIntSigned(w1: string, sign: char, w2: string, d: string, w3: string)
    requires forall k :: 0 <= k < |w1| ==> IsSpace(w1[k])
    requires forall k :: 0 <= k < |w2| ==> IsSpace(w2[k])
    requires forall k :: 0 <= k < |w3| ==> IsSpace(w3[k])
    requires sign == '+' || sign == '-'
    requires IsDigits(d)
    ensures ParseInt(w1 + [sign] + w2 + d + w3) == Some(if sign == '-' then -(DigitsValue(d) as int) else DigitsValue(d))
  {
    var core := [sign] + w2 + d;
    assert w1 + [sign] + w2 + d + w3 == w1 + (core + w3);
    TrimLeftBlanks(w1, core + w3);
    TrimRightBlanks(core, w3);
    assert TrimRight(TrimLeft(w1 + [sign] + w2 + d + w3)) == core;
    assert core[1..] == w2 + d;
    TrimLeftBlanks(w2, d);
    assert ParseTrimmed(core) == Some(if sign == '-' then -(DigitsValue(d) as int) else DigitsValue(d));
  }

  lemma DigitRoundTrip(d: nat)
    requires d < 10
    ensures DigitValue(DigitChar(d)) == d
  {
  }

  /** Printing a count and reading it back with int() gives the count. */
  lemma {:induction false} ParsePrinted(n: nat)
    ensures ParseInt(NatToString(n)) == Some(n)
  {
    DigitsOfPrinted(n);
  }

  lemma {:induction false} DigitsOfPrinted(n: nat)
    ensures DigitsValue(NatToString(n)) == n
  {
    var s := NatToString(n);
    if n < 10 {
      DigitRoundTrip(n);
    } else {
      DigitsOfPrinted(n / 10);
      DigitRoundTrip(n % 10);
      assert s[..|s| - 1] == NatToString(n / 10);
    }
  }

  // ---------------------------------------------------------------------------
  // Paths (Python's os.path on POSIX)

  /** The position of the last c in s, or -1 when c does not occur. */
  function LastIndex(s: string, c: char): (i: int)
    ensures -1 <= i < |s|
    ensures i >= 0 ==> s[i] == c
    ensures forall j :: i < j < |s| ==> s[j] != c
  {
    if s == [] then -1 else if s[|s| - 1] == c then |s| - 1 else LastIndex(s[..|s| - 1], c)
  }

  /** os.path.basename: the text after the last "/". */
  function Basename(p: string): (b: string)
    ensures '/' !in b
  {
    p[LastIndex(p, '/') + 1..]
  }

  /** os.path.join(a, b): b when it is absolute, otherwise a and b with one "/" between them. */
  function PathJoin(a: string, b: string): string
  {
    if |b| > 0 && b[0] == '/' then b
    else if a == [] || a[|a| - 1] == '/' then a + b
    else a + "/" + b
  }

  /** A file name joined to any directory is the basename of the result. */
  lemma BasenameOfJoin(dir: string, name: string)
    requires '/' !in name
    ensures Basename(PathJoin(dir, name)) == name
  {
    var p := PathJoin(dir, name);
    var k := |p| - |name|;
    assert p[k..] == name;
    assert k == 0 || p[k - 1] == '/';
    assert forall j :: k <= j < |p| ==> p[j] == name[j - k];
  }
}

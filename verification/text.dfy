/**
 Python string operations the application relies on, over `string` (a sequence of
 characters). Character classes are the ASCII parts of Python's Unicode classes.
 */
module Text {

  /**
   Whitespace as Python's `string.whitespace` lists it. Python's `\s` and `str.strip`
   also count U+001C to U+001F and the non-ASCII spaces; this model does not.
   */
  predicate IsSpace(c: char) {
    c == ' ' || c == '\t' || c == '\n' || c == '\r' || c == '\U{000B}' || c == '\U{000C}'
  }

  predicate IsDigit(c: char) {
    '0' <= c <= '9'
  }

  function LowerChar(c: char): char {
    if 'A' <= c <= 'Z' then (c as int - 'A' as int + 'a' as int) as char else c
  }

  /** `str.lower`, for ASCII letters. */
  function Lower(s: string): (r: string)
    ensures |r| == |s|
    ensures forall i :: 0 <= i < |s| ==> r[i] == LowerChar(s[i])
  {
    seq(|s|, i requires 0 <= i < |s| => LowerChar(s[i]))
  }

  /** Lower-casing works character by character, so it distributes over concatenation. */
  lemma LowerAppend(a: string, b: string)
    ensures Lower(a + b) == Lower(a) + Lower(b)
  {
  }

  /** Concatenation is associative. */
  lemma ConcatAssoc<T>(x: seq<T>, y: seq<T>, z: seq<T>)
    ensures x + (y + z) == (x + y) + z
  {
  }

  /** Lower-cased parts join into the lower-cased whole. */
  lemma LowerJoin(x1: string, x2: string, y1: string, y2: string)
    requires Lower(x1) == y1 && Lower(x2) == y2
    ensures Lower(x1 + x2) == y1 + y2
  {
    LowerAppend(x1, x2);
  }

  /** A string without capital letters is its own lower-case form. */
  lemma LowerNoCapitals(s: string)
    requires forall i :: 0 <= i < |s| ==> !('A' <= s[i] <= 'Z')
    ensures Lower(s) == s
  {
  }

  /** Python's `sub in s`. */
  predicate Contains(s: string, sub: string) {
    exists i :: 0 <= i <= |s| && sub <= s[i..]
  }

  /** Surrounding text never hides an occurrence. */
  lemma ContainsInContext(a: string, s: string, b: string, sub: string)
    requires Contains(s, sub)
    ensures Contains(a + s + b, sub)
  {
    var i :| 0 <= i <= |s| && sub <= s[i..];
    assert (a + s + b)[|a| + i..] == s[i..] + b;
  }

  /** A string that is longer than `s` is not in `s`. */
  lemma NotContainsLonger(s: string, sub: string)
    requires |sub| > |s|
    ensures !Contains(s, sub)
  {
  }

  /** `str.lstrip()`: the longest suffix that does not start with whitespace. */
  function LStrip(s: string): (r: string)
    ensures |r| <= |s| && r == s[|s| - |r|..]
    ensures forall i :: 0 <= i < |s| - |r| ==> IsSpace(s[i])
    ensures r == [] || !IsSpace(r[0])
  {
    if s != [] && IsSpace(s[0]) then LStrip(s[1..]) else s
  }

  /** `str.rstrip()`: the longest prefix that does not end in whitespace. */
  function RStrip(s: string): (r: string)
    ensures |r| <= |s| && r == s[..|r|]
    ensures forall i :: |r| <= i < |s| ==> IsSpace(s[i])
    ensures r == [] || !IsSpace(r[|r| - 1])
  {
    if s != [] && IsSpace(s[|s| - 1]) then RStrip(s[..|s| - 1]) else s
  }

  /** `str.strip()`: `s` with the whitespace at both ends removed. */
  function Strip(s: string): (r: string)
    ensures |r| <= |s|
    ensures r == [] || (!IsSpace(r[0]) && !IsSpace(r[|r| - 1]))
  {
    RStrip(LStrip(s))
  }

  /** Stripping changes nothing but the ends: the result is a slice of `s` between two runs of whitespace. */
  lemma StripSlice(s: string) returns (lo: nat)
    ensures lo + |Strip(s)| <= |s| && Strip(s) == s[lo..lo + |Strip(s)|]
    ensures forall i :: 0 <= i < lo ==> IsSpace(s[i])
    ensures forall i :: lo + |Strip(s)| <= i < |s| ==> IsSpace(s[i])
  {
    var l := LStrip(s);
    lo := |s| - |l|;
    var r := RStrip(l);
    assert r == Strip(s);
    assert l == s[lo..];
    assert r == s[lo..][..|r|] == s[lo..lo + |r|];
    forall i | lo + |r| <= i < |s| ensures IsSpace(s[i]) {
      assert s[i] == l[i - lo];
    }
  }

  /** Stripping leaves nothing exactly when `s` is all whitespace. */
  lemma StripBlank(s: string)
    ensures Strip(s) == [] <==> forall i :: 0 <= i < |s| ==> IsSpace(s[i])
  {
    var lo := StripSlice(s);
    if Strip(s) != [] {
      assert Strip(s)[0] == s[lo];
    }
  }

  /** The characters of `s` that are not whitespace, in order. */
  function Visible(s: string): string {
    if s == [] then [] else (if IsSpace(s[0]) then [] else [s[0]]) + Visible(s[1..])
  }

  lemma {:induction false} VisibleAppend(a: string, b: string)
    ensures Visible(a + b) == Visible(a) + Visible(b)
  {
    if a == [] {
      assert a + b == b;
    } else {
      assert (a + b)[1..] == a[1..] + b;
      VisibleAppend(a[1..], b);
    }
  }

  /** One character in front: it shows unless it is whitespace. */
  lemma VisibleCons(c: char, t: string)
    ensures Visible([c] + t) == (if IsSpace(c) then [] else [c]) + Visible(t)
  {
    assert ([c] + t)[1..] == t;
  }

  lemma {:induction false} VisibleBlank(s: string)
    requires forall i :: 0 <= i < |s| ==> IsSpace(s[i])
    ensures Visible(s) == []
  {
    if s != [] {
      VisibleBlank(s[1..]);
    }
  }

  lemma {:induction false} LStripVisible(s: string)
    ensures Visible(LStrip(s)) == Visible(s)
  {
    if s != [] && IsSpace(s[0]) {
      LStripVisible(s[1..]);
    }
  }

  lemma {:induction false} RStripVisible(s: string)
    ensures Visible(RStrip(s)) == Visible(s)
  {
    if s != [] && IsSpace(s[|s| - 1]) {
      RStripVisible(s[..|s| - 1]);
      assert s == s[..|s| - 1] + [s[|s| - 1]];
      VisibleAppend(s[..|s| - 1], [s[|s| - 1]]);
    }
  }

  /** Stripping removes whitespace only. */
  lemma StripVisible(s: string)
    ensures Visible(Strip(s)) == Visible(s)
  {
    LStripVisible(s);
    RStripVisible(LStrip(s));
  }

  /** Stripping a string with no whitespace at either end changes nothing. */
  lemma StripUntrimmed(s: string)
    requires s != [] && !IsSpace(s[0]) && !IsSpace(s[|s| - 1])
    ensures Strip(s) == s
  {
  }

  /** A word that follows leading whitespace survives stripping as the start of the result. */
  lemma StripKeepsLeadingWord(ws: string, w: string, t: string)
    requires forall i :: 0 <= i < |ws| ==> IsSpace(ws[i])
    requires w != [] && !IsSpace(w[0]) && !IsSpace(w[|w| - 1])
    ensures w <= Strip(ws + w + t)
  {
    assert ws + w + t == ws + (w + t);
    LStripAfterRun(ws, w + t);
    RStripKeepsPrefix(w, t);
  }

  /** Left-stripping removes exactly a leading run of whitespace. */
  lemma LStripAfterRun(ws: string, x: string)
    requires forall i :: 0 <= i < |ws| ==> IsSpace(ws[i])
    requires x != [] && !IsSpace(x[0])
    ensures LStrip(ws + x) == x
  {
    var s := ws + x;
    var l := LStrip(s);
    assert s[|ws|] == x[0];
    assert |s| - |l| == |ws|;
    assert s[|ws|..] == x;
  }

  /** Right-stripping keeps a prefix that does not end in whitespace. */
  lemma RStripKeepsPrefix(w: string, t: string)
    requires w != [] && !IsSpace(w[|w| - 1])
    ensures w <= RStrip(w + t)
  {
    var l := w + t;
    var r := RStrip(l);
    assert l[|w| - 1] == w[|w| - 1];
    assert |r| >= |w|;
    assert r[..|w|] == l[..|w|] == w;
  }

  /** `sep.join(parts)`. */
  function Join(parts: seq<string>, sep: string): (r: string)
    ensures parts == [] ==> r == []
    ensures parts != [] ==> parts[0] <= r
  {
    if |parts| == 0 then []
    else if |parts| == 1 then parts[0]
    else parts[0] + sep + Join(parts[1..], sep)
  }

  /** Joining one more part adds the separator and that part at the end. */
  lemma {:induction false} JoinAppend(parts: seq<string>, last: string, sep: string)
    requires parts != []
    ensures Join(parts + [last], sep) == Join(parts, sep) + sep + last
    decreases |parts|
  {
    if |parts| == 1 {
      assert parts + [last] == [parts[0], last];
    } else {
      assert (parts + [last])[1..] == parts[1..] + [last];
      JoinAppend(parts[1..], last, sep);
    }
  }

  /** Joining a non-empty list whose first part is non-empty never gives the empty string. */
  lemma JoinNonEmpty(parts: seq<string>, sep: string)
    requires parts != [] && parts[0] != []
    ensures Join(parts, sep) != []
  {
  }

  /** Every part occurs in the joined string. */
  lemma {:induction false} JoinContains(parts: seq<string>, sep: string, i: nat)
    requires i < |parts|
    ensures Contains(Join(parts, sep), parts[i])
    decreases |parts|
  {
    if |parts| == 1 || i == 0 {
      assert parts[0] <= Join(parts, sep)[0..];
    } else {
      JoinContains(parts[1..], sep, i - 1);
      ContainsInContext(parts[0] + sep, Join(parts[1..], sep), [], parts[i]);
      assert parts[0] + sep + Join(parts[1..], sep) + [] == Join(parts, sep);
    }
  }

  /** A template with two holes: fixed text `a`, hole `x`, fixed text `b`, hole `y`, fixed text `c`. */
  function Frame(a: string, x: string, b: string, y: string, c: string): string {
    a + (x + (b + (y + c)))
  }

  /** What occurs in the first hole occurs in the filled template. */
  lemma FrameHasFirst(a: string, x: string, b: string, y: string, c: string, sub: string)
    requires Contains(x, sub)
    ensures Contains(Frame(a, x, b, y, c), sub)
  {
    ContainsInContext(a, x, b + (y + c), sub);
    assert a + x + (b + (y + c)) == Frame(a, x, b, y, c);
  }

  /** `f` is `head`, then `y` unchanged, then `tail`. */
  predicate Framed(f: string, head: string, y: string, tail: string) {
    && |f| == |head| + |y| + |tail|
    && f[..|head|] == head
    && f[|head|..|head| + |y|] == y
    && f[|head| + |y|..] == tail
  }

  /** The filled template splits back into everything up to the second hole, the second hole, and the closing text. */
  lemma FrameSecondSlice(a: string, x: string, b: string, y: string, c: string)
    ensures Framed(Frame(a, x, b, y, c), a + x + b, y, c)
  {
    assert Frame(a, x, b, y, c) == (a + x + b) + y + c;
  }

  /** Around one middle part, the same head and tail leave no room for another. */
  lemma FramedInjective(f: string, head: string, y1: string, y2: string, tail: string)
    requires Framed(f, head, y1, tail) && Framed(f, head, y2, tail)
    ensures y1 == y2
  {
  }

  /** Python's `s.endswith(suffix)`. */
  predicate EndsWith(s: string, suffix: string) {
    |suffix| <= |s| && s[|s| - |suffix|..] == suffix
  }

  /** The filled template starts with its opening text, ends with its closing text, and holds both holes. */
  lemma FrameSurrounds(a: string, x: string, b: string, y: string, c: string)
    ensures var f := Frame(a, x, b, y, c);
      a <= f && EndsWith(f, c) && Contains(f, x) && Contains(f, y)
  {
    FrameSecondSlice(a, x, b, y, c);
    ContainsPrefix(x, x);
    ContainsPrefix(y, y);
    FrameHasFirst(a, x, b, y, c, x);
    FrameHasSecond(a, x, b, y, c, y);
  }

  /** What occurs in the second hole occurs in the filled template. */
  lemma FrameHasSecond(a: string, x: string, b: string, y: string, c: string, sub: string)
    requires Contains(y, sub)
    ensures Contains(Frame(a, x, b, y, c), sub)
  {
    ContainsInContext(a + x + b, y, c, sub);
    assert (a + x + b) + y + c == Frame(a, x, b, y, c);
  }

  /** `Contains` is transitive. */
  lemma ContainsTransitive(s: string, t: string, u: string)
    requires Contains(s, t) && Contains(t, u)
    ensures Contains(s, u)
  {
    var i :| 0 <= i <= |s| && t <= s[i..];
    var j :| 0 <= j <= |t| && u <= t[j..];
    assert u <= s[i + j..];
  }

  /** Every string contains its own prefixes. */
  lemma ContainsPrefix(s: string, p: string)
    requires p <= s
    ensures Contains(s, p)
  {
    assert s[0..] == s;
  }

  /** `s.find(sub)`: the first index at which `sub` occurs, or -1. */
  function IndexOf(s: string, sub: string): (r: int)
    ensures r == -1 || 0 <= r <= |s| - |sub|
    ensures r == -1 <==> !Contains(s, sub)
    ensures r >= 0 ==> sub <= s[r..] && forall j :: 0 <= j < r ==> !(sub <= s[j..])
  {
    IndexFrom(s, sub, 0)
  }

  function IndexFrom(s: string, sub: string, k: nat): (r: int)
    requires k <= |s|
    requires forall j :: 0 <= j < k ==> !(sub <= s[j..])
    ensures r == -1 || 0 <= r <= |s| - |sub|
    ensures r == -1 <==> !Contains(s, sub)
    ensures r >= 0 ==> sub <= s[r..] && forall j :: 0 <= j < r ==> !(sub <= s[j..])
    decreases |s| - k
  {
    if sub <= s[k..] then k
    else if k == |s| then -1
    else IndexFrom(s, sub, k + 1)
  }

  /**
   `s.split(sep)` for a non-empty separator: the pieces between the non-overlapping
   occurrences of `sep`, found from the left. Each separator taken is the first one to
   start after the previous piece began, so no piece followed by a separator could have
   been cut shorter.
   */
  function Split(s: string, sep: string): (r: seq<string>)
    requires sep != []
    ensures r != []
    ensures forall i :: 0 <= i < |r| ==> !Contains(r[i], sep)
    ensures forall i :: 0 <= i < |r| - 1 ==> !Contains(r[i] + sep[..|sep| - 1], sep)
    ensures Join(r, sep) == s
    decreases |s|
  {
    var i := IndexOf(s, sep);
    if i < 0 then [s]
    else
      var rest := Split(s[i + |sep|..], sep);
      SplitStep(s, sep, i, rest);
      [s[..i]] + rest
  }

  /**
   The piece before the first occurrence holds no separator, not even one that would
   run into the separator found, and joining restores `s`.
   */
  lemma SplitStep(s: string, sep: string, i: int, rest: seq<string>)
    requires sep != [] && 0 <= i <= |s| - |sep|
    requires sep <= s[i..] && forall j :: 0 <= j < i ==> !(sep <= s[j..])
    requires rest != [] && Join(rest, sep) == s[i + |sep|..]
    ensures !Contains(s[..i], sep)
    ensures !Contains(s[..i] + sep[..|sep| - 1], sep)
    ensures Join([s[..i]] + rest, sep) == s
  {
    var head := s[..i];
    NoSeparatorWithin(s, sep, i);
    NoSeparatorWithin(s, sep, i + |sep| - 1);
    assert s[i..i + |sep|] == sep;
    assert head + sep[..|sep| - 1] == s[..i + |sep| - 1];
    assert ([head] + rest)[1..] == rest;
    assert s == head + sep + s[i + |sep|..];
  }

  /** No separator starts early enough to end within `s[..n]`, so none fits inside it. */
  lemma NoSeparatorWithin(s: string, sep: string, n: int)
    requires 0 <= n <= |s| && forall j :: 0 <= j && j + |sep| <= n ==> !(sep <= s[j..])
    ensures !Contains(s[..n], sep)
  {
    var head := s[..n];
    forall j | 0 <= j <= |head|
      ensures !(sep <= head[j..])
    {
      if j + |sep| <= |head| {
        assert head[j..][..|sep|] == s[j..][..|sep|];
      }
    }
  }

  function DigitChar(d: nat): (c: char)
    requires d < 10
    ensures IsDigit(c) && c as int - '0' as int == d
  {
    ('0' as int + d) as char
  }

  function DigitValue(c: char): nat
    requires IsDigit(c)
  {
    c as int - '0' as int
  }

  /** `str(n)` for a natural number: decimal digits without leading zeros. */
  function NatToString(n: nat): (r: string)
    ensures r != []
    ensures forall i :: 0 <= i < |r| ==> IsDigit(r[i])
    ensures r[0] == '0' ==> n == 0 && r == "0"
    decreases n
  {
    if n < 10 then [DigitChar(n)] else NatToString(n / 10) + [DigitChar(n % 10)]
  }

  /** The number a string of decimal digits denotes. */
  function DigitsValue(s: string): nat
    requires forall i :: 0 <= i < |s| ==> IsDigit(s[i])
  {
    if s == [] then 0 else DigitsValue(s[..|s| - 1]) * 10 + DigitValue(s[|s| - 1])
  }

  /** Reading back the decimal rendering of a number gives the number. */
  lemma {:induction false} NatToStringRoundTrip(n: nat)
    ensures DigitsValue(NatToString(n)) == n
    decreases n
  {
    if n >= 10 {
      var r := NatToString(n);
      assert r[..|r| - 1] == NatToString(n / 10);
      NatToStringRoundTrip(n / 10);
    }
  }

  /** `str(n)` for an integer. */
  function IntToString(n: int): (r: string)
    ensures r != []
    ensures n < 0 <==> r[0] == '-'
  {
    if n < 0 then "-" + NatToString(-n) else NatToString(n)
  }
}

/**
 * The parts of Python's `str` that server.py relies on: `isspace`, `strip`,
 * `split` and `join` with an explicit separator, `capitalize`, and the
 * decimal rendering of a non-negative int inside an f-string.
 */
module Text {

  /**
   * Python's `str.isspace` for one character: the characters `strip()`
   * removes (tab to carriage return, the four separators 0x1C-0x1F, space,
   * and the Unicode spaces and line and paragraph separators).
   */
  predicate IsSpace(c: char) {
    ('\t' <= c <= '\r') || ('\U{1C}' <= c <= ' ') || c == '\U{85}' || c == '\U{A0}' || c == '\U{1680}'
    || ('\U{2000}' <= c <= '\U{200A}') || c == '\U{2028}' || c == '\U{2029}' || c == '\U{202F}'
    || c == '\U{205F}' || c == '\U{3000}'
  }

  /** s neither starts nor ends with whitespace. */
  predicate Trimmed(s: string) {
    s == [] || (!IsSpace(s[0]) && !IsSpace(s[|s| - 1]))
  }

  /** `s.lstrip()`: the suffix left once the leading whitespace is cut away. */
  function TrimStart(s: string): (r: string)
    ensures |r| <= |s|
    ensures r == [] || !IsSpace(r[0])
    ensures r != [] ==> r[|r| - 1] == s[|s| - 1]
  {
    if s != [] && IsSpace(s[0]) then TrimStart(s[1..]) else s
  }

  /** What lstrip leaves is a suffix of s, and everything cut away is whitespace. */
  lemma {:induction false} TrimStartSuffix(s: string)
    ensures var r := TrimStart(s);
      r == s[|s| - |r|..] && forall k :: 0 <= k < |s| - |r| ==> IsSpace(s[k])
  {
    if s != [] && IsSpace(s[0]) {
      TrimStartSuffix(s[1..]);
      var r := TrimStart(s);
      assert r == s[1..][|s| - 1 - |r|..];
      forall k | 0 <= k < |s| - |r|
        ensures IsSpace(s[k])
      {
        if k > 0 { assert s[k] == s[1..][k - 1]; }
      }
    }
  }

  /** `s.rstrip()`: the prefix left once the trailing whitespace is cut away. */
  function TrimEnd(s: string): (r: string)
    ensures |r| <= |s|
    ensures r == [] || !IsSpace(r[|r| - 1])
    ensures r != [] ==> r[0] == s[0]
  {
    if s != [] && IsSpace(s[|s| - 1]) then TrimEnd(s[..|s| - 1]) else s
  }

  /** What rstrip leaves is a prefix of s, and everything cut away is whitespace. */
  lemma {:induction false} TrimEndPrefix(s: string)
    ensures var r := TrimEnd(s);
      r == s[..|r|] && forall k :: |r| <= k < |s| ==> IsSpace(s[k])
  {
    if s != [] && IsSpace(s[|s| - 1]) {
      var init := s[..|s| - 1];
      TrimEndPrefix(init);
      var r := TrimEnd(s);
      assert r == init[..|r|];
      forall k | |r| <= k < |s|
        ensures IsSpace(s[k])
      {
        if k < |s| - 1 { assert s[k] == init[k]; }
      }
    }
  }

  /**
   * r sits in s at index i, and everything of s around it is whitespace.
   */
  ghost predicate InfixAt(s: string, r: string, i: nat) {
    i + |r| <= |s| && r == s[i..i + |r|]
    && (forall k :: 0 <= k < i ==> IsSpace(s[k]))
    && (forall k :: i + |r| <= k < |s| ==> IsSpace(s[k]))
  }

  /** `s.strip()`: s with its leading and trailing whitespace cut away. */
  function Strip(s: string): (r: string)
    ensures |r| <= |s| && Trimmed(r)
  {
    TrimEnd(TrimStart(s))
  }

  /**
   * What strip leaves is an infix of s, and only whitespace was cut away on
   * either side of it.
   */
  lemma StripIsInfix(s: string)
    ensures exists i: nat :: InfixAt(s, Strip(s), i)
  {
    var t := TrimStart(s);
    TrimStartSuffix(s);
    TrimEndPrefix(t);
    TrimmedInfix(s, t, TrimEnd(t));
    assert InfixAt(s, Strip(s), |s| - |t|);
  }

  /** Cutting whitespace off the front and then off the back leaves an infix. */
  lemma TrimmedInfix(s: string, t: string, r: string)
    requires |t| <= |s| && t == s[|s| - |t|..]
    requires forall k :: 0 <= k < |s| - |t| ==> IsSpace(s[k])
    requires |r| <= |t| && r == t[..|r|]
    requires forall k :: |r| <= k < |t| ==> IsSpace(t[k])
    ensures InfixAt(s, r, |s| - |t|)
  {
    var i := |s| - |t|;
    assert t == s[i..];
    assert r == s[i..i + |r|];
    forall k | i + |r| <= k < |s|
      ensures IsSpace(s[k])
    {
      assert s[k] == t[k - i];
      assert |r| <= k - i < |t|;
    }
  }

  /** Stripping text that is already trimmed changes nothing. */
  lemma StripTrimmed(s: string)
    requires Trimmed(s)
    ensures Strip(s) == s
  {
  }

  /** Stripping a trimmed line followed by a carriage return gives the line back. */
  lemma StripCarriageReturn(s: string)
    requires Trimmed(s)
    ensures Strip(s + "\r") == s
  {
    var t := s + "\r";
    if s == [] {
      assert TrimStart(t) == [];
    } else {
      assert t[0] == s[0];
      assert TrimStart(t) == t;
      assert t[..|t| - 1] == s;
      assert TrimEnd(t) == TrimEnd(s);
    }
  }

  /** sep occurs in s starting at index i. */
  predicate OccursAt(s: string, sep: string, i: nat) {
    i + |sep| <= |s| && s[i..i + |sep|] == sep
  }

  /** sep occurs nowhere in s. */
  ghost predicate Free(s: string, sep: string) {
    forall i: nat :: !OccursAt(s, sep, i)
  }

  /** `s.find(sep, start)`: the first occurrence of sep at or after `start`, or -1. */
  function Find(s: string, sep: string, start: nat): (r: int)
    requires |sep| > 0
    decreases |s| - start
    ensures r == -1 || (start <= r && OccursAt(s, sep, r))
  {
    if start + |sep| > |s| then -1
    else if OccursAt(s, sep, start) then start
    else Find(s, sep, start + 1)
  }

  /** Find reports the first occurrence: there is none from `start` up to it, nor any at all when it gives -1. */
  lemma {:induction false} FindFirst(s: string, sep: string, start: nat)
    requires |sep| > 0
    decreases |s| - start
    ensures var r := Find(s, sep, start);
      (r == -1 ==> forall i: nat :: start <= i ==> !OccursAt(s, sep, i))
      && (r != -1 ==> forall i: nat :: start <= i < r ==> !OccursAt(s, sep, i))
  {
    if start + |sep| > |s| {
      forall i: nat | start <= i
        ensures !OccursAt(s, sep, i)
      {
      }
    } else if !OccursAt(s, sep, start) {
      FindFirst(s, sep, start + 1);
    }
  }

  /** `sep.join(parts)`. */
  function Join(parts: seq<string>, sep: string): string {
    if |parts| == 0 then ""
    else if |parts| == 1 then parts[0]
    else parts[0] + sep + Join(parts[1..], sep)
  }

  /**
   * `s.split(sep)` for a non-empty separator: the pieces between the
   * occurrences of sep found left to right.
   */
  function Split(s: string, sep: string): (r: seq<string>)
    requires |sep| > 0
    decreases |s|
    ensures |r| >= 1
  {
    var i := Find(s, sep, 0);
    if i == -1 then [s] else [s[..i]] + Split(s[i + |sep|..], sep)
  }

  /** Joining the pieces of a split with the separator gives the text back. */
  lemma {:induction false} JoinSplit(s: string, sep: string)
    requires |sep| > 0
    decreases |s|
    ensures Join(Split(s, sep), sep) == s
  {
    var i := Find(s, sep, 0);
    if i != -1 {
      var rest := Split(s[i + |sep|..], sep);
      JoinSplit(s[i + |sep|..], sep);
      assert ([s[..i]] + rest)[1..] == rest;
      assert s == s[..i] + sep + s[i + |sep|..];
    }
  }

  /** No piece of a split contains the separator. */
  lemma {:induction false} SplitPiecesFree(s: string, sep: string)
    requires |sep| > 0
    decreases |s|
    ensures forall k :: 0 <= k < |Split(s, sep)| ==> Free(Split(s, sep)[k], sep)
  {
    var i := Find(s, sep, 0);
    if i == -1 {
      FindFirst(s, sep, 0);
    } else {
      PrefixBeforeFirstIsFree(s, sep, i);
      SplitPiecesFree(s[i + |sep|..], sep);
    }
  }

  /** The text before the first occurrence of sep does not contain sep. */
  lemma PrefixBeforeFirstIsFree(s: string, sep: string, i: nat)
    requires |sep| > 0 && Find(s, sep, 0) == i
    ensures Free(s[..i], sep)
  {
    FindFirst(s, sep, 0);
    forall j: nat
      ensures !OccursAt(s[..i], sep, j)
    {
      if OccursAt(s[..i], sep, j) {
        assert s[..i][j..j + |sep|] == s[j..j + |sep|];
        assert OccursAt(s, sep, j);
      }
    }
  }

  /** An occurrence that ends within x is one in x, whatever follows x. */
  lemma OccursInPrefix(x: string, y: string, sep: string, j: nat)
    requires j + |sep| <= |x|
    ensures OccursAt(x + y, sep, j) <==> OccursAt(x, sep, j)
  {
    var u, v := (x + y)[j..j + |sep|], x[j..j + |sep|];
    forall k | 0 <= k < |sep|
      ensures u[k] == v[k]
    {
      assert (x + y)[j + k] == x[j + k];
    }
    assert u == v;
  }

  /** The first occurrence is pinned down by the occurrences before it. */
  lemma FindIs(s: string, sep: string, i: nat)
    requires |sep| > 0 && OccursAt(s, sep, i)
    requires forall j: nat :: j < i ==> !OccursAt(s, sep, j)
    ensures Find(s, sep, 0) == i
  {
    FindFirst(s, sep, 0);
  }

  /**
   * The first occurrence of sep in `a + sep + b` is the one right after a,
   * given that none starts inside a: splitting peels off a.
   */
  lemma {:induction false} SplitCons(a: string, sep: string, b: string)
    requires |sep| > 0 && Find(a + sep, sep, 0) == |a|
    ensures Split(a + sep + b, sep) == [a] + Split(b, sep)
  {
    var s := a + sep + b;
    FindFirst(a + sep, sep, 0);
    forall j: nat | j < |a|
      ensures !OccursAt(s, sep, j)
    {
      OccursInPrefix(a + sep, b, sep, j);
    }
    OccursInPrefix(a + sep, b, sep, |a|);
    FindIs(s, sep, |a|);
    assert s[..|a|] == a;
    assert s[|a| + |sep|..] == b;
  }

  /** Splitting text without any separator yields that text alone. */
  lemma SplitFree(s: string, sep: string)
    requires |sep| > 0 && Free(s, sep)
    ensures Split(s, sep) == [s]
  {
  }

  /** A one-character separator: free means the character is absent. */
  lemma FreeChar(s: string, c: char)
    ensures Free(s, [c]) <==> c !in s
  {
    if c in s {
      var i :| 0 <= i < |s| && s[i] == c;
      assert s[i..i + 1] == [c];
      assert OccursAt(s, [c], i);
    } else {
      forall i: nat
        ensures !OccursAt(s, [c], i)
      {
        if i + 1 <= |s| {
          assert s[i..i + 1] == [s[i]];
        }
      }
    }
  }

  /** Text that lacks the separator's first character does not contain the separator. */
  lemma FreeWithoutFirst(s: string, sep: string)
    requires |sep| > 0 && sep[0] !in s
    ensures Free(s, sep)
  {
  }

  /** A one-character separator cannot straddle the end of a piece. */
  lemma FindCharAfter(a: string, c: char)
    requires c !in a
    ensures Find(a + [c], [c], 0) == |a|
  {
    var s := a + [c];
    forall j: nat | j < |a|
      ensures !OccursAt(s, [c], j)
    {
      assert s[j] == a[j];
    }
    assert s[|a|] == c;
    FindIs(s, [c], |a|);
  }

  /** The separator ": " cannot straddle the end of a piece, since ':' is not ' '. */
  lemma FindColonSpaceAfter(a: string)
    requires Free(a, ": ")
    ensures Find(a + ": ", ": ", 0) == |a|
  {
    var s := a + ": ";
    forall j: nat | j < |a|
      ensures !OccursAt(s, ": ", j)
    {
      if j + 2 <= |a| {
        OccursInPrefix(a, ": ", ": ", j);
      } else {
        assert s[j + 1] == ':';
      }
    }
    assert s[|a|] == ':' && s[|a| + 1] == ' ';
    FindIs(s, ": ", |a|);
  }

  /** Splitting `a b c` on single spaces, when no token holds a space. */
  lemma SplitThreeTokens(a: string, b: string, c: string)
    requires ' ' !in a && ' ' !in b && ' ' !in c
    ensures Split(a + " " + b + " " + c, " ") == [a, b, c]
  {
    FindCharAfter(a, ' ');
    FindCharAfter(b, ' ');
    FreeChar(c, ' ');
    SplitCons(a, " ", b + " " + c);
    assert a + " " + b + " " + c == a + " " + (b + " " + c);
    SplitCons(b, " ", c);
    SplitFree(c, " ");
  }

  /** Splitting `name: value` on ": ", when neither part holds ": ". */
  lemma SplitField(name: string, value: string)
    requires Free(name, ": ") && Free(value, ": ")
    ensures Split(name + ": " + value, ": ") == [name, value]
  {
    FindColonSpaceAfter(name);
    SplitCons(name, ": ", value);
    SplitFree(value, ": ");
  }

  /** How many times c occurs in s (`s.count(c)`). */
  function CountChar(s: string, c: char): nat {
    if s == [] then 0 else (if s[0] == c then 1 else 0) + CountChar(s[1..], c)
  }

  lemma {:induction false} CountCharAppend(a: string, b: string, c: char)
    ensures CountChar(a + b, c) == CountChar(a, c) + CountChar(b, c)
  {
    if a == [] {
      assert a + b == b;
    } else {
      assert (a + b)[0] == a[0];
      assert (a + b)[1..] == a[1..] + b;
      CountCharAppend(a[1..], b, c);
    }
  }

  lemma {:induction false} CountCharAbsent(s: string, c: char)
    requires c !in s
    ensures CountChar(s, c) == 0
  {
    if s != [] { CountCharAbsent(s[1..], c); }
  }

  /** Splitting on one character gives one piece more than there are occurrences of it. */
  lemma {:induction false} SplitCharCount(s: string, c: char)
    decreases |s|
    ensures |Split(s, [c])| == CountChar(s, c) + 1
  {
    var i := Find(s, [c], 0);
    if i == -1 {
      FindFirst(s, [c], 0);
      FreeChar(s, c);
      CountCharAbsent(s, c);
    } else {
      var a, b := s[..i], s[i + 1..];
      PrefixBeforeFirstIsFree(s, [c], i);
      FreeChar(a, c);
      CountCharAbsent(a, c);
      assert s == a + [c] + b;
      CountCharAppend(a + [c], b, c);
      CountCharAppend(a, [c], c);
      SplitCharCount(b, c);
    }
  }

  /** Python's `str.upper` on one character, for ASCII letters. */
  function Upper(c: char): char {
    if 'a' <= c <= 'z' then (c as int - 32) as char else c
  }

  /** Python's `str.lower` on one character, for ASCII letters. */
  function Lower(c: char): char {
    if 'A' <= c <= 'Z' then (c as int + 32) as char else c
  }

  /** `s.lower()`, for ASCII letters. */
  function LowerAll(s: string): (r: string)
    ensures |r| == |s| && forall k :: 0 <= k < |s| ==> r[k] == Lower(s[k])
  {
    if s == [] then [] else [Lower(s[0])] + LowerAll(s[1..])
  }

  /** `s.capitalize()`: the first character upper case, the rest lower case. */
  function Capitalize(s: string): (r: string)
    ensures |r| == |s|
  {
    if s == [] then [] else [Upper(s[0])] + LowerAll(s[1..])
  }

  /** The decimal digit for d. */
  function Digit(d: nat): (c: char)
    requires d < 10
    ensures '0' <= c <= '9'
  {
    ('0' as int + d) as char
  }

  /** The number a decimal digit character stands for. */
  function DigitValue(c: char): nat
    requires '0' <= c <= '9'
  {
    c as int - '0' as int
  }

  /** The number a string of decimal digits stands for, most significant digit first. */
  function DigitsValue(s: string): nat
    requires forall k :: 0 <= k < |s| ==> '0' <= s[k] <= '9'
  {
    if s == [] then 0 else DigitsValue(s[..|s| - 1]) * 10 + DigitValue(s[|s| - 1])
  }

  /** `str(n)` for a non-negative int: decimal digits without a leading zero. */
  function Decimal(n: nat): (r: string)
    ensures |r| >= 1
    ensures forall k :: 0 <= k < |r| ==> '0' <= r[k] <= '9'
    ensures r[0] == '0' ==> n == 0
  {
    if n < 10 then [Digit(n)] else Decimal(n / 10) + [Digit(n % 10)]
  }

  /** `str(n)` reads back as n. */
  lemma {:induction false} DecimalValue(n: nat)
    ensures DigitsValue(Decimal(n)) == n
  {
    var s := Decimal(n);
    if n < 10 {
      assert s[..0] == [];
    } else {
      DecimalValue(n / 10);
      assert s[..|s| - 1] == Decimal(n / 10);
    }
  }
}

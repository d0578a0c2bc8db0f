/**
 * The POSIX path helpers server.py uses: `path.lstrip("/")`,
 * `os.path.join` with two arguments and the extension `os.path.splitext`
 * splits off.
 */
module Paths {

  /** `p.lstrip("/")`: p with every leading '/' removed. */
  function StripLeadingSlashes(p: string): (r: string)
    ensures |r| <= |p|
    ensures r == [] || r[0] != '/'
  {
    if p != [] && p[0] == '/' then StripLeadingSlashes(p[1..]) else p
  }

  /** What lstrip leaves is a suffix of p, and everything cut away is a '/'. */
  lemma {:induction false} StripLeadingSlashesSuffix(p: string)
    ensures var r := StripLeadingSlashes(p);
      r == p[|p| - |r|..] && forall k :: 0 <= k < |p| - |r| ==> p[k] == '/'
  {
    if p != [] && p[0] == '/' {
      StripLeadingSlashesSuffix(p[1..]);
      var r := StripLeadingSlashes(p);
      assert r == p[1..][|p| - 1 - |r|..];
      forall k | 0 <= k < |p| - |r|
        ensures p[k] == '/'
      {
        if k > 0 { assert p[k] == p[1..][k - 1]; }
      }
    }
  }

  /**
   * `os.path.join(a, b)` on POSIX: an absolute b replaces a; otherwise b is
   * appended to a, with a '/' between them unless a is empty or already ends
   * in one.
   */
  function JoinPath(a: string, b: string): (r: string)
    ensures b != [] && b[0] == '/' ==> r == b
    ensures (b == [] || b[0] != '/') && (a == [] || a[|a| - 1] == '/') ==> r == a + b
    ensures (b == [] || b[0] != '/') && a != [] && a[|a| - 1] != '/' ==> r == a + "/" + b
  {
    if b != [] && b[0] == '/' then b
    else if a == [] || a[|a| - 1] == '/' then a + b
    else a + "/" + b
  }

  /** `s.rfind(c)`: the index of the last c in s, or -1. */
  function LastIndexOf(s: string, c: char): (r: int)
    ensures -1 <= r < |s|
    ensures r >= 0 ==> s[r] == c
    ensures forall k :: r < k < |s| ==> s[k] != c
  {
    if s == [] then -1
    else if s[|s| - 1] == c then |s| - 1
    else LastIndexOf(s[..|s| - 1], c)
  }

  /** Every character of s is a dot. */
  predicate AllDots(s: string) {
    forall k :: 0 <= k < |s| ==> s[k] == '.'
  }

  /**
   * The extension part of `os.path.splitext(p)`: from the last '.' of the
   * final path component to the end, unless nothing but dots precede that
   * '.' within the component (a leading dot does not start an extension);
   * otherwise empty.
   */
  function Extension(p: string): (r: string)
    ensures |r| <= |p|
    ensures r == [] || r[0] == '.'
  {
    var slash := LastIndexOf(p, '/');
    var dot := LastIndexOf(p, '.');
    if dot > slash && exists k :: slash < k < dot && p[k] != '.' then p[dot..] else []
  }

  /** A non-empty extension is a suffix of p that starts with its only '.' and holds no '/'. */
  lemma ExtensionIsSuffix(p: string)
    ensures var r := Extension(p);
      r == [] || (r == p[|p| - |r|..] && r[0] == '.'
                  && forall k :: 0 <= k < |r| ==> r[k] != '/' && (k > 0 ==> r[k] != '.'))
  {
    var slash := LastIndexOf(p, '/');
    var dot := LastIndexOf(p, '.');
    if dot > slash && exists k :: slash < k < dot && p[k] != '.' {
      ExtensionTail(p, slash, dot);
    }
  }

  /** What follows the last '.', itself after the last '/', holds neither. */
  lemma ExtensionTail(p: string, slash: int, dot: nat)
    requires -1 <= slash < dot < |p| && p[dot] == '.'
    requires forall k :: slash < k < |p| ==> p[k] != '/'
    requires forall k :: dot < k < |p| ==> p[k] != '.'
    ensures |p[dot..]| <= |p| && p[dot..] == p[|p| - |p[dot..]|..] && p[dot..][0] == '.'
    ensures forall k :: 0 <= k < |p| - dot ==> p[dot..][k] != '/' && (k > 0 ==> p[dot..][k] != '.')
  {
  }

  /** The last index found is the one of the final occurrence. */
  lemma LastIndexOfIs(s: string, c: char, i: int)
    requires -1 <= i < |s| && (i >= 0 ==> s[i] == c)
    requires forall k :: i < k < |s| ==> s[k] != c
    ensures LastIndexOf(s, c) == i
  {
  }

  /** A final component `stem.ext` with a stem not made only of dots has extension `.ext`. */
  lemma {:induction false} ExtensionOfName(dir: string, stem: string, ext: string)
    requires '/' !in stem && '/' !in ext && '.' !in ext
    requires !AllDots(stem)
    ensures Extension(dir + "/" + stem + "." + ext) == "." + ext
  {
    var p := dir + "/" + stem + "." + ext;
    var slash := |dir|;
    var dot := |dir| + 1 + |stem|;
    forall k | slash < k < |p|
      ensures p[k] != '/'
    {
      if k < dot { assert p[k] == stem[k - slash - 1]; }
      else if k > dot { assert p[k] == ext[k - dot - 1]; }
    }
    LastIndexOfIs(p, '/', slash);
    forall k | dot < k < |p|
      ensures p[k] != '.'
    {
      assert p[k] == ext[k - dot - 1];
    }
    LastIndexOfIs(p, '.', dot);
    var j :| 0 <= j < |stem| && stem[j] != '.';
    assert p[slash + 1 + j] == stem[j];
    assert p[dot..] == "." + ext;
  }

  /** A bare name `stem.ext`, with no directory part, whose stem is not all dots has extension `.ext`. */
  lemma {:induction false} ExtensionOfBareName(stem: string, ext: string)
    requires '/' !in stem && '/' !in ext && '.' !in ext
    requires !AllDots(stem)
    ensures Extension(stem + "." + ext) == "." + ext
  {
    var p := stem + "." + ext;
    var dot := |stem|;
    forall k | 0 <= k < |p|
      ensures p[k] != '/'
    {
      if k < dot { assert p[k] == stem[k]; }
      else if k > dot { assert p[k] == ext[k - dot - 1]; }
    }
    LastIndexOfIs(p, '/', -1);
    forall k | dot < k < |p|
      ensures p[k] != '.'
    {
      assert p[k] == ext[k - dot - 1];
    }
    LastIndexOfIs(p, '.', dot);
    var j :| 0 <= j < |stem| && stem[j] != '.';
    assert p[j] == stem[j];
    assert p[dot..] == "." + ext;
  }

  /** A final component that starts with its only dot (`.bashrc`) has no extension. */
  lemma {:induction false} LeadingDotIsNoExtension(dir: string, name: string)
    requires '/' !in name && '.' !in name
    ensures Extension(dir + "/." + name) == []
  {
    var p := dir + "/." + name;
    var slash := |dir|;
    forall k | slash < k < |p|
      ensures p[k] != '/'
    {
      if k > slash + 1 { assert p[k] == name[k - slash - 2]; }
    }
    LastIndexOfIs(p, '/', slash);
    forall k | slash + 1 < k < |p|
      ensures p[k] != '.'
    {
      assert p[k] == name[k - slash - 2];
    }
    LastIndexOfIs(p, '.', slash + 1);
  }

  /** A final component without any dot has no extension, whatever dots the directories hold. */
  lemma {:induction false} NoDotNoExtension(dir: string, name: string)
    requires '/' !in name && '.' !in name
    ensures Extension(dir + "/" + name) == []
  {
    var p := dir + "/" + name;
    var slash := |dir|;
    forall k | slash < k < |p|
      ensures p[k] != '/' && p[k] != '.'
    {
      assert p[k] == name[k - slash - 1];
    }
    LastIndexOfIs(p, '/', slash);
    assert LastIndexOf(p, '.') < slash;
  }
}

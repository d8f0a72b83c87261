/**
 * The parts of Python's `posixpath` (`os.path` on a POSIX host) that the
 * services use: `str.rfind`, `basename`, `join` with two arguments, and
 * `splitext`.
 */
module PosixPath {

  /** `s.rfind(c)`: the index of the last occurrence of `c`, or -1. */
  function RFind(s: string, c: char): (i: int)
    ensures -1 <= i < |s|
    ensures i >= 0 ==> s[i] == c
    ensures forall j :: i < j < |s| ==> s[j] != c
  {
    if |s| == 0 then -1
    else if s[|s| - 1] == c then |s| - 1
    else RFind(s[..|s| - 1], c)
  }

  /** `os.path.basename(p)`: everything after the last '/'. */
  function BaseName(p: string): (b: string)
    ensures '/' !in b
    ensures |b| <= |p| && b == p[|p| - |b|..]
    ensures |b| < |p| ==> p[|p| - |b| - 1] == '/'
  {
    p[RFind(p, '/') + 1..]
  }

  /** `os.path.join(a, b)`: an absolute `b` wins; otherwise a '/' is inserted unless `a` is empty or already ends with one. */
  function Join(a: string, b: string): (r: string)
    ensures |b| > 0 && b[0] == '/' ==> r == b
    ensures a == [] ==> r == b
    ensures (|b| == 0 || b[0] != '/') && |a| > 0 ==> r == a + (if a[|a| - 1] == '/' then "" else "/") + b
  {
    if |b| > 0 && b[0] == '/' then b
    else if a == [] || a[|a| - 1] == '/' then a + b
    else a + "/" + b
  }

  predicate AllDots(s: string) {
    forall i :: 0 <= i < |s| ==> s[i] == '.'
  }

  /** Every '.' of the name is preceded only by '.': the name is a run of dots then dot-free text. */
  predicate LeadingDotsOnly(b: string) {
    forall i, j :: 0 <= i < j < |b| && b[j] == '.' ==> b[i] == '.'
  }

  /**
   * `os.path.splitext(p)`: the extension runs from the last '.' of the last
   * path component, unless that component is only dots before it (so
   * ".pdf" and "..pdf" have no extension).
   */
  function SplitExt(p: string): (r: (string, string))
    ensures r.0 + r.1 == p
    ensures r.1 == [] <==> LeadingDotsOnly(BaseName(p))
    ensures r.1 != [] ==> r.1[0] == '.' && '.' !in r.1[1..] && '/' !in r.1
  {
    var sep := RFind(p, '/');
    var dot := RFind(p, '.');
    var b := BaseName(p);
    if dot > sep && !AllDots(p[sep + 1..dot]) then
      ExtensionFound(p, sep, dot, b);
      assert p[..dot] + p[dot..] == p;
      (p[..dot], p[dot..])
    else
      NoExtension(p, sep, dot, b);
      assert p + [] == p;
      (p, [])
  }

  /** A dot after a non-dot of the last component starts a proper extension. */
  lemma ExtensionFound(p: string, sep: int, dot: int, b: string)
    requires -1 <= sep < dot < |p| && b == p[sep + 1..]
    requires p[dot] == '.' && forall j :: dot < j < |p| ==> p[j] != '.'
    requires forall j :: sep < j < |p| ==> p[j] != '/'
    requires !AllDots(p[sep + 1..dot])
    ensures !LeadingDotsOnly(b)
    ensures p[dot..][0] == '.' && '.' !in p[dot..][1..] && '/' !in p[dot..]
  {
    var seg := p[sep + 1..dot];
    var k :| 0 <= k < |seg| && seg[k] != '.';
    assert b[k] == seg[k] && b[dot - sep - 1] == p[dot];
    var ext := p[dot..];
    forall i | 0 <= i < |ext| ensures ext[i] != '/' && (i > 0 ==> ext[i] != '.') {
      assert ext[i] == p[dot + i];
    }
    forall i | 0 <= i < |ext[1..]| ensures ext[1..][i] != '.' {
      assert ext[1..][i] == ext[i + 1];
    }
  }

  /** Otherwise the last component is a run of dots followed by dot-free text. */
  lemma NoExtension(p: string, sep: int, dot: int, b: string)
    requires -1 <= sep < |p| && b == p[sep + 1..]
    requires -1 <= dot < |p| && forall j :: dot < j < |p| ==> p[j] != '.'
    requires !(dot > sep && !AllDots(p[sep + 1..dot]))
    ensures LeadingDotsOnly(b)
  {
    forall i, j | 0 <= i < j < |b| && b[j] == '.' ensures b[i] == '.' {
      assert b[j] == p[sep + 1 + j];
      assert b[i] == p[sep + 1 + i];
      assert p[sep + 1..dot][i] == p[sep + 1 + i];
    }
  }

  /** A suffix without `c` does not move the last occurrence of `c`. */
  lemma {:induction false} RFindAppend(a: string, b: string, c: char)
    requires c !in b
    ensures RFind(a + b, c) == RFind(a, c)
  {
    var i, k := RFind(a + b, c), RFind(a, c);
    if k >= 0 {
      assert (a + b)[k] == c;
    }
    if i >= 0 {
      assert (a + b)[i] == c;
      if i < |a| {
        assert a[i] == c;
      }
    }
  }

  /** A path without '/' is its own last component. */
  lemma SlashFreeBaseName(p: string)
    requires '/' !in p
    ensures BaseName(p) == p
  {
  }

  /** A slash-free name with no dot after its first character has no extension. */
  lemma NoInnerDotNoExtension(p: string)
    requires '/' !in p
    requires forall j :: 0 < j < |p| ==> p[j] != '.'
    ensures SplitExt(p).1 == []
  {
    SlashFreeBaseName(p);
    assert LeadingDotsOnly(p);
  }

  /** Appending slash-free text extends the last component by that text. */
  lemma BaseNameAppend(a: string, b: string)
    requires '/' !in b
    ensures BaseName(a + b) == BaseName(a) + b
  {
    RFindAppend(a, b, '/');
    var sep := RFind(a, '/');
    assert (a + b)[sep + 1..] == a[sep + 1..] + b;
  }

  /**
   * Appending a dot-led, dot-free, slash-free suffix to a path whose last
   * component is not only dots makes that suffix the extension.
   */
  lemma SplitExtOfStemAndExt(stem: string, ext: string)
    requires |ext| > 0 && ext[0] == '.' && '.' !in ext[1..] && '/' !in ext
    requires !AllDots(BaseName(stem))
    ensures SplitExt(stem + ext) == (stem, ext)
  {
    var p := stem + ext;
    RFindAppend(stem, ext, '/');
    var sep := RFind(p, '/');
    assert sep == RFind(stem, '/');
    assert p[|stem|] == '.';
    forall j | |stem| < j < |p| ensures p[j] != '.' {
      assert p[j] == ext[1..][j - |stem| - 1];
    }
    var dot := RFind(p, '.');
    assert dot == |stem|;
    assert p[sep + 1..dot] == BaseName(stem);
    assert p[..dot] == stem && p[dot..] == ext;
  }
}

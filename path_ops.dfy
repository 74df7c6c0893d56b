/**
 * The string operations both scripts rely on, as pure functions on
 * `seq<char>`: POSIX `os.path.splitext`, `os.path.basename` and
 * `os.path.join`, `str.lower` (ASCII letters only) and `str.endswith`.
 */
module PathOps {

  /** Python's `str.rfind` for one character: the last index of `c` in `s`, or -1. */
  function RFind(s: string, c: char): (r: int)
    ensures -1 <= r < |s|
    ensures r >= 0 ==> s[r] == c
    ensures forall j :: r < j < |s| ==> s[j] != c
  {
    if |s| == 0 then -1
    else if s[|s| - 1] == c then |s| - 1
    else RFind(s[..|s| - 1], c)
  }

  /**
   * `k` is where `os.path.splitext(p)` cuts `p`: `p[k]` is a dot, no dot and
   * no separator follows it, and the final path component has a character
   * other than a dot before it (leading dots belong to the root).
   */
  ghost predicate ExtensionAt(p: string, k: int)
  {
    && 0 <= k < |p|
    && p[k] == '.'
    && (forall j :: k < j < |p| ==> p[j] != '.' && p[j] != '/')
    && (exists j :: 0 <= j < k && p[j] != '.' && forall m :: j <= m < k ==> p[m] != '/')
  }

  /** POSIX `os.path.splitext`: `(root, ext)` with `root + ext == p`. */
  function SplitExt(p: string): (r: (string, string))
    ensures r.0 + r.1 == p
  {
    var sep := RFind(p, '/');
    var dot := RFind(p, '.');
    if sep < dot && NonDotIn(p, sep + 1, dot) then (p[..dot], p[dot..])
    else (p, "")
  }

  /** Some character of `p[lo..hi]` is not a dot (the leading-dot scan of `splitext`). */
  predicate NonDotIn(p: string, lo: int, hi: int)
    requires 0 <= lo <= hi <= |p|
    decreases hi - lo
  {
    lo < hi && (p[lo] != '.' || NonDotIn(p, lo + 1, hi))
  }

  lemma {:induction false} NonDotInSpec(p: string, lo: int, hi: int)
    requires 0 <= lo <= hi <= |p|
    ensures NonDotIn(p, lo, hi) <==> exists j :: lo <= j < hi && p[j] != '.'
    decreases hi - lo
  {
    if lo < hi {
      NonDotInSpec(p, lo + 1, hi);
    }
  }

  /** `SplitExt` cuts exactly at the one position `ExtensionAt` describes, and nowhere if there is none. */
  lemma SplitExtSpec(p: string)
    ensures forall k :: ExtensionAt(p, k) ==> SplitExt(p) == (p[..k], p[k..])
    ensures (forall k :: !ExtensionAt(p, k)) ==> SplitExt(p) == (p, "")
  {
    var sep := RFind(p, '/');
    var dot := RFind(p, '.');
    if sep < dot {
      NonDotInSpec(p, sep + 1, dot);
    }
    forall k | ExtensionAt(p, k)
      ensures k == dot && sep < dot && exists j :: sep < j < dot && p[j] != '.'
    {
      var j :| 0 <= j < k && p[j] != '.' && forall m :: j <= m < k ==> p[m] != '/';
      assert sep < j;
    }
    if sep < dot && exists j :: sep < j < dot && p[j] != '.' {
      var j :| sep < j < dot && p[j] != '.';
      assert forall m :: j <= m < dot ==> p[m] != '/';
      assert ExtensionAt(p, dot);
    }
  }

  /** The extension is empty or one dot followed by neither dots nor separators. */
  lemma ExtensionShape(p: string)
    ensures var ext := SplitExt(p).1;
      ext == "" || (ext[0] == '.' && '.' !in ext[1..] && '/' !in ext)
  {
    SplitExtSpec(p);
  }

  /** POSIX `os.path.basename`: everything after the last separator. */
  function Basename(p: string): string
  {
    p[RFind(p, '/') + 1..]
  }

  /** The base name is the longest suffix of `p` without a separator. */
  lemma BasenameSpec(p: string)
    ensures var r := Basename(p);
      && |r| <= |p| && r == p[|p| - |r|..]
      && '/' !in r
      && (|r| < |p| ==> p[|p| - |r| - 1] == '/')
  {
  }

  /** Everything of `p` up to and including its last separator. */
  function DirPrefix(p: string): string
  {
    p[..RFind(p, '/') + 1]
  }

  /** The directory prefix and the base name split `p`. */
  lemma DirPrefixSpec(p: string)
    ensures DirPrefix(p) + Basename(p) == p
  {
  }

  /**
   * POSIX `os.path.join(a, b)`: an absolute `b` replaces `a`; otherwise `b`
   * is appended, with one separator unless `a` is empty or already ends in one.
   */
  function Join(a: string, b: string): string
  {
    if |b| > 0 && b[0] == '/' then b
    else if a == "" || a[|a| - 1] == '/' then a + b
    else a + "/" + b
  }

  /** `b` ends the joined path, after a separator or `a` itself; an absolute `b` is the whole result. */
  lemma JoinSpec(a: string, b: string)
    ensures var r := Join(a, b);
      && (|b| > 0 && b[0] == '/' ==> r == b)
      && |b| <= |r| && r[|r| - |b|..] == b
      && (!(|b| > 0 && b[0] == '/') ==> r[..|r| - |b|] == a || r[..|r| - |b|] == a + "/")
      && (|r| > |b| ==> r[|r| - |b| - 1] == '/')
  {
  }

  /** Joining a separator-free name makes it the base name of the result. */
  lemma BasenameOfJoin(a: string, b: string)
    requires '/' !in b
    ensures Basename(Join(a, b)) == b
  {
    if |b| > 0 {
      assert b[0] in b;
    }
    BasenameUnique(Join(a, b), b);
  }

  /** Appending a separator-free string extends the base name and keeps the directory prefix. */
  lemma BasenameAppend(p: string, s: string)
    requires '/' !in s
    ensures Basename(p + s) == Basename(p) + s
    ensures DirPrefix(p + s) == DirPrefix(p)
  {
    var q := p + s;
    var b := Basename(p) + s;
    assert b == q[|q| - |b|..];
    assert '/' !in b by {
      forall i | 0 <= i < |b| ensures b[i] != '/' {
        if i >= |Basename(p)| {
          assert b[i] == s[i - |Basename(p)|];
        } else {
          assert b[i] == Basename(p)[i];
        }
      }
    }
    if |b| < |q| {
      assert q[|q| - |b| - 1] == p[|p| - |Basename(p)| - 1];
    }
    BasenameUnique(q, b);
  }

  /** A slash-free suffix that is whole or preceded by a separator is the base name. */
  lemma BasenameUnique(p: string, b: string)
    requires |b| <= |p| && b == p[|p| - |b|..]
    requires '/' !in b
    requires |b| < |p| ==> p[|p| - |b| - 1] == '/'
    ensures Basename(p) == b
  {
  }

  /** One character of Python's `str.lower`, for the ASCII letters. */
  function LowerChar(c: char): char
  {
    if 'A' <= c <= 'Z' then (c as int + 32) as char else c
  }

  /** Python's `str.lower`, restricted to ASCII letters. */
  function Lower(s: string): (r: string)
    ensures |r| == |s|
    ensures forall i :: 0 <= i < |s| ==> r[i] == LowerChar(s[i])
  {
    seq(|s|, i requires 0 <= i < |s| => LowerChar(s[i]))
  }

  /** Python's `str.endswith`. */
  predicate EndsWith(s: string, suffix: string)
  {
    |suffix| <= |s| && s[|s| - |suffix|..] == suffix
  }

  /** Lower-casing neither creates nor removes dots and separators. */
  lemma ExtensionAtLower(p: string, k: int)
    ensures ExtensionAt(Lower(p), k) <==> ExtensionAt(p, k)
  {
    var q := Lower(p);
    if ExtensionAt(p, k) {
      var j :| 0 <= j < k && p[j] != '.' && forall m :: j <= m < k ==> p[m] != '/';
      assert q[j] != '.';
      assert ExtensionAt(q, k);
    }
    if ExtensionAt(q, k) {
      var j :| 0 <= j < k && q[j] != '.' && forall m :: j <= m < k ==> q[m] != '/';
      assert p[j] != '.';
      assert ExtensionAt(p, k);
    }
  }

  /** Lower-casing commutes with `SplitExt`. */
  lemma SplitExtLower(p: string)
    ensures SplitExt(Lower(p)) == (Lower(SplitExt(p).0), Lower(SplitExt(p).1))
  {
    if exists k :: ExtensionAt(p, k) {
      var k :| ExtensionAt(p, k);
      SplitExtLowerAt(p, k);
    } else {
      SplitExtLowerNone(p);
    }
  }

  lemma SplitExtLowerAt(p: string, k: int)
    requires ExtensionAt(p, k)
    ensures SplitExt(Lower(p)) == (Lower(SplitExt(p).0), Lower(SplitExt(p).1))
  {
    ExtensionAtLower(p, k);
    SplitExtAt(p, k);
    SplitExtAt(Lower(p), k);
    LowerSlices(p, k);
  }

  lemma LowerSlices(p: string, k: int)
    requires 0 <= k <= |p|
    ensures Lower(p)[..k] == Lower(p[..k]) && Lower(p)[k..] == Lower(p[k..])
  {
  }

  lemma SplitExtLowerNone(p: string)
    requires forall k :: !ExtensionAt(p, k)
    ensures SplitExt(Lower(p)) == (Lower(SplitExt(p).0), Lower(SplitExt(p).1))
  {
    var q := Lower(p);
    forall k ensures !ExtensionAt(q, k) {
      ExtensionAtLower(p, k);
    }
    SplitExtNone(p);
    SplitExtNone(q);
    assert Lower("") == "";
  }

  lemma SplitExtAt(p: string, k: int)
    requires ExtensionAt(p, k)
    ensures SplitExt(p) == (p[..k], p[k..])
  {
    SplitExtSpec(p);
  }

  lemma SplitExtNone(p: string)
    requires forall k :: !ExtensionAt(p, k)
    ensures SplitExt(p) == (p, "")
  {
    SplitExtSpec(p);
  }
}

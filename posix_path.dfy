/**
 * The few string operations of Python's `posixpath` module and of `str`
 * that the program-identification code relies on: `basename`, `join`,
 * `splitext`, and `str.split` with an explicit separator (used on `PATH`).
 * They are written after the definitions of CPython's posixpath module as of
 * Python 2.6 and later (where `splitext` skips the leading dots of a file
 * name, so `.hoc` has no extension) and work on POSIX paths only.
 */
module PosixPath {

  const Sep: char := '/'
  const ExtSep: char := '.'
  const PathListSep: char := ':'

  /** `s.rfind(c)`: the index of the last `c` in `s`, or -1 when there is none. */
  function RFind(s: string, c: char): (r: int)
    ensures -1 <= r < |s|
    ensures r >= 0 ==> s[r] == c
    ensures forall k :: r < k < |s| ==> s[k] != c
    ensures r == -1 <==> c !in s
  {
    if s == [] then -1
    else if s[|s| - 1] == c then |s| - 1
    else
      assert s == s[..|s| - 1] + [s[|s| - 1]];
      RFind(s[..|s| - 1], c)
  }

  /** `os.path.basename(p)`: everything after the last separator. */
  function Basename(p: string): (r: string)
    ensures |r| <= |p| && r == p[|p| - |r|..]
    ensures Sep !in r
    ensures |r| < |p| ==> p[|p| - |r| - 1] == Sep
  {
    p[RFind(p, Sep) + 1..]
  }

  /** `os.path.join(a, b)` for two components. */
  function Join(a: string, b: string): (r: string)
    ensures |b| > 0 && b[0] == Sep ==> r == b
  {
    if |b| > 0 && b[0] == Sep then b
    else if a == [] || a[|a| - 1] == Sep then a + b
    else a + [Sep] + b
  }

  /** The last separator of `a + b` is the last one of `a` when `b` has none. */
  lemma RFindAppend(a: string, b: string, c: char)
    requires c in a && c !in b
    ensures RFind(a + b, c) == RFind(a, c)
  {
    assert (a + b)[RFind(a, c)] == c;
  }

  /**
   * Joining a file name onto a directory and taking the base name gives the
   * file name back: the path that discovery builds names the file it looked for.
   */
  lemma BasenameOfJoin(dir: string, file: string)
    requires Sep !in file
    ensures Basename(Join(dir, file)) == file
  {
    var r := Join(dir, file);
    if dir == [] {
      assert r == file;
      assert RFind(r, Sep) == -1;
    } else {
      var d := if dir[|dir| - 1] == Sep then dir else dir + [Sep];
      assert r == d + file;
      assert d[|d| - 1] == Sep;
      RFindAppend(d, file, Sep);
      assert RFind(d, Sep) == |d| - 1;
    }
  }

  /** True when `p[lo..hi]` holds a character other than a dot. */
  predicate HasNonDot(p: string, lo: int, hi: int)
    requires 0 <= lo <= hi <= |p|
  {
    exists k :: lo <= k < hi && p[k] != ExtSep
  }

  /**
   * `os.path.splitext(p)`: `(root, ext)` where `ext` runs from the last dot of
   * the last path component to the end, unless that component consists of
   * dots up to that dot (a leading-dot name such as `.bashrc` has no extension).
   */
  function SplitExt(p: string): (r: (string, string))
    ensures r.0 + r.1 == p
    ensures r.1 != [] ==> r.1[0] == ExtSep && Sep !in r.1 && ExtSep !in r.1[1..]
    ensures r.1 != [] ==> HasNonDot(p, RFind(p, Sep) + 1, |r.0|)
  {
    var sepIndex := RFind(p, Sep);
    var dotIndex := RFind(p, ExtSep);
    if dotIndex > sepIndex && HasNonDot(p, sepIndex + 1, dotIndex) then
      (p[..dotIndex], p[dotIndex..])
    else
      (p, [])
  }

  /**
   * Splitting a file name whose stem has a real (non-dot) character in its last
   * component gives back the stem and the extension it was built from.
   */
  lemma SplitExtOfName(stem: string, ext: string)
    requires |ext| >= 1 && ext[0] == ExtSep && Sep !in ext && ExtSep !in ext[1..]
    requires HasNonDot(stem, RFind(stem, Sep) + 1, |stem|)
    ensures SplitExt(stem + ext) == (stem, ext)
  {
    var p := stem + ext;
    assert forall k :: |stem| < k < |p| ==> p[k] == ext[1..][k - |stem| - 1];
    RFindIsLast(p, ExtSep, |stem|);
    assert RFind(p, Sep) == RFind(stem, Sep) by {
      if Sep in stem {
        RFindAppend(stem, ext, Sep);
      } else {
        assert forall k :: 0 <= k < |p| ==> p[k] == if k < |stem| then stem[k] else ext[k - |stem|];
      }
    }
    var k :| RFind(stem, Sep) + 1 <= k < |stem| && stem[k] != ExtSep;
    assert p[k] == stem[k];
    assert HasNonDot(p, RFind(p, Sep) + 1, RFind(p, ExtSep));
    assert p[..|stem|] == stem && p[|stem|..] == ext;
  }

  /** A `c` with no `c` after it is the one `rfind` finds. */
  lemma RFindIsLast(s: string, c: char, j: nat)
    requires j < |s| && s[j] == c
    requires forall k :: j < k < |s| ==> s[k] != c
    ensures RFind(s, c) == j
  {
  }

  /** `s.split(c)`: the pieces of `s` between occurrences of `c`. */
  function Split(s: string, c: char): (r: seq<string>)
    ensures |r| >= 1
    ensures forall i :: 0 <= i < |r| ==> c !in r[i]
    decreases |s|
  {
    var i := RFind(s, c);
    if i < 0 then [s] else Split(s[..i], c) + [s[i + 1..]]
  }

  /** `c.join(pieces)`, the inverse of `Split`. */
  function JoinWith(pieces: seq<string>, c: char): (r: string)
    requires |pieces| >= 1
  {
    if |pieces| == 1 then pieces[0]
    else JoinWith(pieces[..|pieces| - 1], c) + [c] + pieces[|pieces| - 1]
  }

  /** Splitting then joining with the same separator gives the text back. */
  lemma {:induction false} JoinSplit(s: string, c: char)
    ensures JoinWith(Split(s, c), c) == s
    decreases |s|
  {
    var i := RFind(s, c);
    if i >= 0 {
      var front := Split(s[..i], c);
      JoinSplit(s[..i], c);
      var pieces := front + [s[i + 1..]];
      assert Split(s, c) == pieces;
      assert pieces[..|pieces| - 1] == front && pieces[|pieces| - 1] == s[i + 1..];
      assert JoinWith(pieces, c) == JoinWith(front, c) + [c] + s[i + 1..];
      assert s == s[..i] + [c] + s[i + 1..];
    }
  }

  /** Joining pieces free of the separator and splitting again gives the pieces back. */
  lemma {:induction false} SplitJoin(pieces: seq<string>, c: char)
    requires |pieces| >= 1
    requires forall i :: 0 <= i < |pieces| ==> c !in pieces[i]
    ensures Split(JoinWith(pieces, c), c) == pieces
    decreases |pieces|
  {
    if |pieces| > 1 {
      var front := pieces[..|pieces| - 1];
      var last := pieces[|pieces| - 1];
      var head := JoinWith(front, c) + [c];
      SplitJoin(front, c);
      RFindAppend(head, last, c);
      assert RFind(head, c) == |head| - 1;
      var s := JoinWith(pieces, c);
      assert s == head + last;
      assert s[..|head| - 1] == JoinWith(front, c);
      assert s[|head|..] == last;
      assert front + [last] == pieces;
    }
  }
}

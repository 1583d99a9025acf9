/** Node's `path.extname` on POSIX paths. */
module NodePath {

  /** Position of the last occurrence of `c` in `s`. */
  function LastIndexOf(s: string, c: char): (i: nat)
    requires c in s
    ensures i < |s| && s[i] == c && c !in s[i + 1..]
  {
    if s[|s| - 1] == c then |s| - 1
    else
      var t := s[..|s| - 1];
      assert c in t by {
        var k :| 0 <= k < |s| && s[k] == c;
        assert t[k] == c;
      }
      var i := LastIndexOf(t, c);
      assert s[i + 1..] == t[i + 1..] + [s[|s| - 1]];
      i
  }

  /** `p` with every trailing `/` removed. */
  function StripTrailingSlashes(p: string): (q: string)
    ensures |q| <= |p| && q == p[..|q|]
    ensures |q| == 0 || q[|q| - 1] != '/'
    ensures forall i | |q| <= i < |p| :: p[i] == '/'
  {
    if |p| > 0 && p[|p| - 1] == '/' then StripTrailingSlashes(p[..|p| - 1]) else p
  }

  /** The last path component: what follows the last `/` once trailing
      slashes are gone. */
  function BaseName(p: string): (b: string)
    ensures '/' !in b
  {
    var q := StripTrailingSlashes(p);
    if '/' in q then q[LastIndexOf(q, '/') + 1..] else q
  }

  /** `path.extname(p)`: from the last `.` of the last component to its end;
      empty when that component has no `.`, when its only `.` is its first
      character, or when it is `..`. */
  function ExtName(p: string): (e: string)
    ensures e == "" || (e[0] == '.' && '.' !in e[1..] && '/' !in e)
  {
    var b := BaseName(p);
    if '.' !in b then ""
    else
      var d := LastIndexOf(b, '.');
      if d == 0 || b == ".." then "" else b[d..]
  }

  /** A name ending in `.` plus an extension without dots reports that
      extension, whatever precedes it, unless the whole name is `..` or
      starts its only component with the dot. */
  lemma ExtNameOf(stem: string, ext: string)
    requires stem != "" && '/' !in stem
    requires '/' !in ext && '.' !in ext
    requires !(stem == "." && ext == "")
    ensures ExtName(stem + "." + ext) == "." + ext
  {
    var p := stem + "." + ext;
    assert p[|p| - 1] != '/';
    assert StripTrailingSlashes(p) == p;
    assert '/' !in p;
    assert BaseName(p) == p;
    assert p[|stem|] == '.';
    var d := LastIndexOf(p, '.');
    assert d == |stem|;
    assert p[d..] == "." + ext;
  }

  /** A name without any dot has no extension. */
  lemma ExtNameNoDot(p: string)
    requires '.' !in p
    ensures ExtName(p) == ""
  {
    var q := StripTrailingSlashes(p);
    assert '.' !in q;
    if '/' in q {
      var i := LastIndexOf(q, '/');
      assert '.' !in q[i + 1..];
    }
  }

  /** Appending an extension (or nothing) to a dot-free, slash-free name
      makes that the name's extension. */
  lemma ExtNameAfterPlain(stem: string, e: string)
    requires stem != "" && '.' !in stem && '/' !in stem
    requires e == "" || (e[0] == '.' && '.' !in e[1..] && '/' !in e)
    ensures ExtName(stem + e) == e
  {
    if e == "" {
      assert stem + e == stem;
      ExtNameNoDot(stem);
    } else {
      var tail := e[1..];
      assert stem + e == stem + "." + tail;
      ExtNameOf(stem, tail);
    }
  }
}

/**
 * The part of Node's `path.extname` (POSIX flavour) that the plugin relies
 * on: trailing slashes are ignored, the extension is taken from the last
 * path component, from its last `.` on, and a component whose only dot is
 * its first character (such as `.ts`), or that is `..`, has no extension.
 */
module PosixPath {
  import opened Text

  /** The path with every trailing `/` removed. */
  function StripTrailingSlashes(p: string): (r: string)
    ensures |r| <= |p| && r == p[..|r|]
    ensures r == [] || r[|r| - 1] != '/'
    ensures forall k :: |r| <= k < |p| ==> p[k] == '/'
  {
    if p != [] && p[|p| - 1] == '/' then StripTrailingSlashes(p[..|p| - 1]) else p
  }

  /** A path that does not end in `/` is left as it is. */
  lemma StripNothing(p: string)
    requires p != [] && p[|p| - 1] != '/'
    ensures StripTrailingSlashes(p) == p
  {
  }

  /** The last component of the path once trailing slashes are removed. */
  function LastComponent(p: string): (b: string)
    ensures '/' !in b
  {
    var s := StripTrailingSlashes(p);
    s[LastIndexOf(s, '/') + 1..]
  }

  predicate IsDotDot(b: string)
  {
    |b| == 2 && b[0] == '.' && b[1] == '.'
  }

  /** `path.extname(p)`: empty, or the last component from its last `.` on. */
  function Extname(p: string): (e: string)
    ensures e == [] || e[0] == '.'
  {
    var b := LastComponent(p);
    var d := LastIndexOf(b, '.');
    if d <= 0 || IsDotDot(b) then [] else b[d..]
  }

  /** A non-empty extension is a `.` followed by neither `.` nor `/`, and ends the last component. */
  lemma ExtnameShape(p: string)
    ensures var e := Extname(p);
      e == [] || ('.' !in e[1..] && '/' !in e && EndsWith(LastComponent(p), e))
  {
    var b := LastComponent(p);
    var d := LastIndexOf(b, '.');
    if !(d <= 0 || IsDotDot(b)) {
      assert b[d..][1..] == b[d + 1..];
      assert b[|b| - |b[d..]|..] == b[d..];
    }
  }

  /** The last component of `pre.a` is what follows the last `/` of `pre`, then `.a`. */
  lemma LastComponentOfDotted(pre: string, a: string)
    requires a != [] && '/' !in a
    ensures LastComponent(pre + ("." + a)) == pre[LastIndexOf(pre, '/') + 1..] + ("." + a)
  {
    var t := "." + a;
    var p := pre + t;
    assert p[|p| - 1] == a[|a| - 1];
    StripNothing(p);
    assert '/' !in t;
    LastIndexOfAppend(pre, t, '/');
    var k := LastIndexOf(pre, '/');
    var u := pre[k + 1..];
    SliceOfAppend(pre, t, k + 1);
    assert LastComponent(p) == u + t;
  }

  /** A last component `u.a` gives the extension `.a`, unless `u` is empty. */
  lemma ExtnameOfComponent(p: string, u: string, a: string)
    requires a != [] && '.' !in a
    requires LastComponent(p) == u + ("." + a)
    ensures Extname(p) == if u == [] then [] else "." + a
  {
    LastDotOfDotted(u, a);
    var b := u + ("." + a);
    assert b[|b| - 1] == a[|a| - 1];
  }

  /**
   * A path that ends in `.` and a dot-free, slash-free name has that
   * extension, except when the `.` starts the last component.
   */
  lemma ExtnameOfDotted(pre: string, a: string)
    requires a != [] && '.' !in a && '/' !in a
    ensures Extname(pre + "." + a) == if pre == [] || pre[|pre| - 1] == '/' then [] else "." + a
  {
    assert pre + "." + a == pre + ("." + a);
    var k := LastIndexOf(pre, '/');
    assert k + 1 == |pre| <==> pre == [] || pre[|pre| - 1] == '/' by {
      if pre != [] && pre[|pre| - 1] == '/' {
        LastIndexOfIs(pre, '/', |pre| - 1);
      }
    }
    LastComponentOfDotted(pre, a);
    ExtnameOfComponent(pre + ("." + a), pre[k + 1..], a);
  }

  /** The same, about the dot at position `d` of a path. */
  lemma ExtnameAtDot(path: string, d: nat)
    requires d < |path| && path[d] == '.'
    requires var a := path[d + 1..]; a != [] && '.' !in a && '/' !in a
    ensures Extname(path) == if d == 0 || path[d - 1] == '/' then [] else path[d..]
  {
    SplitAtDot(path, d);
    ExtnameOfDotted(path[..d], path[d + 1..]);
  }
}

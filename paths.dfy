/**
 * The parts of Python's `os.path` (POSIX flavour) and `str.lower` that the
 * editor's decisions depend on: `dirname` for the remembered directory and
 * `splitext` plus lower-casing for the save format.
 */
module Paths {

  /** Python's `s.rfind(c)`: the index of the last `c`, or -1. */
  function RFind(s: string, c: char): (i: int)
    ensures -1 <= i < |s|
    ensures i >= 0 ==> s[i] == c
    ensures forall k :: i < k < |s| ==> s[k] != c
  {
    if s == [] then -1
    else if s[|s| - 1] == c then |s| - 1
    else RFind(s[..|s| - 1], c)
  }

  /** Python's `s.rstrip(c)` for one character: drop every trailing `c`. */
  function RStrip(s: string, c: char): (r: string)
    ensures r <= s
    ensures r == [] || r[|r| - 1] != c
    ensures forall k :: |r| <= k < |s| ==> s[k] == c
  {
    if s != [] && s[|s| - 1] == c then RStrip(s[..|s| - 1], c) else s
  }

  /**
   * `posixpath.dirname`: everything up to the last '/', with trailing
   * slashes removed unless the head is made of slashes only.
   */
  function Dirname(p: string): (d: string)
    ensures d <= p
  {
    var head := p[..RFind(p, '/') + 1];
    if exists k :: 0 <= k < |head| && head[k] != '/' then RStrip(head, '/') else head
  }

  /** The directory of a file named inside it is that directory. */
  lemma {:induction false} DirnameOfJoin(dir: string, name: string)
    requires dir != [] && dir[|dir| - 1] != '/'
    requires '/' !in name
    ensures Dirname(dir + "/" + name) == dir
  {
    var p := dir + "/" + name;
    var i := RFind(p, '/');
    assert p[|dir|] == '/';
    assert i == |dir|;
    var head := p[..i + 1];
    assert head == dir + "/";
    assert head[|dir| - 1] != '/';
    var r := RStrip(head, '/');
    assert r <= head;
    assert r == head[..|dir|];
  }

  /** A bare file name has an empty directory. */
  lemma DirnameOfName(name: string)
    requires '/' !in name
    ensures Dirname(name) == ""
  {
  }

  /**
   * `posixpath.splitext(p)[1]`: from the last '.' of the last path segment
   * to the end, provided that segment has something other than dots before
   * it; otherwise empty.
   */
  function Extension(p: string): (e: string)
    ensures e == [] || (|e| <= |p| && e == p[|p| - |e|..] && e[0] == '.' && '.' !in e[1..] && '/' !in e)
  {
    var sep := RFind(p, '/');
    var dot := RFind(p, '.');
    if sep < dot && exists k :: sep < k < dot && p[k] != '.' then
      assert forall k :: dot < k < |p| ==> p[k] != '.' && p[k] != '/';
      p[dot..]
    else
      []
  }

  /** A file name `stem.ext` has the extension `.ext`. */
  lemma {:induction false} ExtensionOfName(stem: string, ext: string)
    requires stem != [] && stem[|stem| - 1] != '.' && stem[|stem| - 1] != '/'
    requires '.' !in ext && '/' !in ext
    ensures Extension(stem + "." + ext) == "." + ext
  {
    var p := stem + "." + ext;
    var dot := RFind(p, '.');
    var sep := RFind(p, '/');
    assert p[|stem|] == '.';
    assert dot == |stem|;
    assert sep < |stem| - 1 by {
      assert p[|stem| - 1] == stem[|stem| - 1];
    }
    assert p[|stem| - 1] != '.';
    assert p[dot..] == "." + ext;
  }

  /** A path without any '.' has no extension. */
  lemma ExtensionWithoutDot(p: string)
    requires '.' !in p
    ensures Extension(p) == ""
  {
  }

  /** A file whose name is a dot followed by no other dot (`.bashrc`, `dir/.hidden`) has no extension. */
  lemma {:induction false} ExtensionOfDotfile(dir: string, name: string)
    requires dir == [] || dir[|dir| - 1] == '/'
    requires |name| > 0 && name[0] == '.' && '.' !in name[1..] && '/' !in name
    ensures Extension(dir + name) == ""
  {
    var p := dir + name;
    var dot := RFind(p, '.');
    var sep := RFind(p, '/');
    assert p[|dir|] == '.';
    assert forall k :: |dir| < k < |p| ==> p[k] == name[1..][k - |dir| - 1];
    assert dot == |dir|;
    if dir != [] {
      assert p[|dir| - 1] == '/';
    }
    assert sep == |dir| - 1;
  }

  /** `str.lower` on ASCII letters; other characters are kept. */
  function LowerChar(c: char): char {
    if 'A' <= c <= 'Z' then (c as int + 32) as char else c
  }

  function Lower(s: string): (r: string)
    ensures |r| == |s|
    ensures forall k :: 0 <= k < |s| ==> r[k] == LowerChar(s[k])
  {
    seq(|s|, k requires 0 <= k < |s| => LowerChar(s[k]))
  }

  /** A string without upper-case ASCII letters is its own lower-case form. */
  lemma LowerWithoutCapitals(s: string)
    requires forall k :: 0 <= k < |s| ==> !('A' <= s[k] <= 'Z')
    ensures Lower(s) == s
  {
  }
}

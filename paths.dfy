/** The POSIX path functions of Python's `os.path` that the program calls
    (`basename`, `dirname`/`split`, `join` and `normpath`), after CPython's posixpath. */
module Paths {
  import opened Text

  /** `p.rfind('/') + 1`: where the last component of `p` begins. */
  function SepEnd(p: string): (i: nat)
    ensures i <= |p|
    ensures i > 0 ==> p[i - 1] == '/'
    ensures '/' !in p[i..]
  {
    if p == "" then 0
    else if p[|p| - 1] == '/' then |p|
    else
      var i := SepEnd(p[..|p| - 1]);
      assert p[i..] == p[..|p| - 1][i..] + [p[|p| - 1]];
      i
  }

  predicate AllSlashes(s: string) {
    forall i :: 0 <= i < |s| ==> s[i] == '/'
  }

  /** `s.rstrip('/')`. */
  function RStripSlashes(s: string): (r: string)
    ensures StartsWith(s, r)
    ensures r == "" || r[|r| - 1] != '/'
    ensures AllSlashes(s[|r|..])
  {
    if s != "" && s[|s| - 1] == '/' then
      var r := RStripSlashes(s[..|s| - 1]);
      assert s[|r|..] == s[..|s| - 1][|r|..] + ['/'];
      r
    else s
  }

  /** `os.path.basename(p)`: the text after the last slash. */
  function Basename(p: string): (r: string)
    ensures '/' !in r
    ensures EndsWith(p, r)
  {
    p[SepEnd(p)..]
  }

  /** `os.path.dirname(p)`, which is also `os.path.split(p)[0]`: the text before the last component,
      without trailing slashes unless it consists of slashes only. */
  function Dirname(p: string): string
  {
    var head := p[..SepEnd(p)];
    if head != "" && !AllSlashes(head) then RStripSlashes(head) else head
  }

  /** `os.path.join(a, b)`. */
  function PathJoin(a: string, b: string): string
  {
    if StartsWith(b, "/") then b
    else if a == "" || EndsWith(a, "/") then a + b
    else a + "/" + b
  }

  /** The shape of every result of `Dirname`: empty, all slashes, or not ending in a slash. */
  predicate IsDirectoryPart(d: string) {
    d == "" || AllSlashes(d) || d[|d| - 1] != '/'
  }

  lemma {:induction false} DirnameShape(p: string)
    ensures IsDirectoryPart(Dirname(p))
  {
  }

  lemma {:induction false} SepEndAfter(a: string, b: string)
    requires '/' !in b
    ensures SepEnd(a + b) == SepEnd(a)
    decreases |b|
  {
    if b != "" {
      var ab := a + b;
      assert ab[..|ab| - 1] == a + b[..|b| - 1];
      assert b[|b| - 1] in b;
      SepEndAfter(a, b[..|b| - 1]);
    } else {
      assert a + b == a;
    }
  }

  /** Joining a directory part with a plain file name, then taking the path apart, gives both back. */
  lemma {:induction false} JoinThenSplit(d: string, b: string)
    requires IsDirectoryPart(d)
    requires b != "" && '/' !in b
    ensures Basename(PathJoin(d, b)) == b
    ensures Dirname(PathJoin(d, b)) == d
  {
    assert !StartsWith(b, "/") by { assert b[0] in b; }
    var j := PathJoin(d, b);
    if d == "" {
      SepEndAfter("", b);
      assert j == "" + b;
    } else if d[|d| - 1] == '/' {
      assert j == d + b;
      SepEndAfter(d, b);
      assert j[..SepEnd(j)] == d;
    } else {
      var ds := d + "/";
      assert j == ds + b;
      SepEndAfter(ds, b);
      assert SepEnd(ds) == |ds|;
      assert j[..SepEnd(j)] == ds;
      assert !AllSlashes(ds) by { assert ds[|d| - 1] != '/'; }
      assert ds[..|ds| - 1] == d;
    }
  }

  /** One component of `normpath`'s loop: drop "" and ".", let ".." cancel a preceding name. */
  function NormStep(acc: seq<string>, comp: string, absolute: bool): seq<string>
  {
    if comp == "" || comp == "." then acc
    else if comp != ".." || (!absolute && acc == []) || (acc != [] && acc[|acc| - 1] == "..") then acc + [comp]
    else if acc != [] then acc[..|acc| - 1]
    else acc
  }

  function NormComponents(comps: seq<string>, absolute: bool, acc: seq<string>): seq<string>
    decreases |comps|
  {
    if comps == [] then acc
    else NormComponents(comps[1..], absolute, NormStep(acc, comps[0], absolute))
  }

  /** `os.path.normpath(p)`. */
  function NormPath(p: string): (r: string)
    ensures r != ""
  {
    if p == "" then "."
    else
      var slashes := if StartsWith(p, "//") && !StartsWith(p, "///") then "//"
                     else if StartsWith(p, "/") then "/"
                     else "";
      var r := slashes + Join("/", NormComponents(Split(p, '/'), slashes != "", []));
      if r == "" then "." else r
  }

  /** A plain file name, the common case of an include, is its own normal form. */
  lemma {:induction false} PlainNameIsNormal(c: string)
    requires c != "" && c != "." && c != ".." && '/' !in c
    ensures NormPath(c) == c
  {
    SplitWithout(c, '/');
    assert c[0] in c;
    assert NormComponents([c], false, []) == NormComponents([], false, [c]);
  }
}

// Directories as strings (architecture/matching.py and code_graph/viz.py).
module Paths {

  const ROOT_LABEL := "(root)"

  // Position of the last slash.
  function LastSlash(path: string): (i: nat)
    requires '/' in path
    ensures i < |path| && path[i] == '/' && '/' !in path[i + 1..]
  {
    if path[|path| - 1] == '/' then |path| - 1
    else
      var init := path[..|path| - 1];
      assert path == init + [path[|path| - 1]];
      var i := LastSlash(init);
      assert path[i + 1..] == init[i + 1..] + [path[|path| - 1]];
      i
  }

  // d.rsplit("/", 1)[0]
  function Parent(directory: string): (parent: string)
    requires '/' in directory
    ensures |parent| < |directory|
  {
    directory[..LastSlash(directory)]
  }

  function DirectoryOf(path: string): string {
    if '/' in path then Parent(path) else ROOT_LABEL
  }

  // A path is its directory, a slash and a name; without a slash it lies at the root.
  lemma DirectoryExact(path: string)
    ensures if '/' in path then exists name: string :: '/' !in name && path == DirectoryOf(path) + "/" + name
            else DirectoryOf(path) == "(root)"
  {
    if '/' in path {
      var i := LastSlash(path);
      assert path == path[..i] + "/" + path[i + 1..];
    }
  }

  lemma LastSlashAt(path: string, i: nat)
    requires i < |path| && path[i] == '/' && '/' !in path[i + 1..]
    ensures '/' in path && LastSlash(path) == i
  {
    assert path[i] in path;
    var j := LastSlash(path);
    assert forall k | i < k < |path| :: path[k] == path[i + 1..][k - i - 1];
    assert forall k | j < k < |path| :: path[k] == path[j + 1..][k - j - 1];
  }

  // x is the directory p or lies below it: x == p or x.startswith(p + "/")
  predicate Under(x: string, p: string) {
    p <= x && (|x| == |p| || x[|p|] == '/')
  }

  // "/".join(parts[:k]) for k = 1, 2, ...: the prefixes that end at a slash, and
  // the whole.
  function Ancestors(directory: string): set<string> {
    set i | 0 <= i <= |directory| && (i == |directory| || directory[i] == '/') :: directory[..i]
  }

  lemma AncestorsAreAbove(directory: string, p: string)
    ensures p in Ancestors(directory) <==> Under(directory, p)
  {
    if Under(directory, p) {
      assert directory[..|p|] == p;
    }
  }

  lemma StartsBelow(x: string, t: string)
    requires t + "/" <= x
    ensures |t| < |x| && x[|t|] == '/' && x[..|t|] == t && '/' in x
  {
    assert x[|t|] == (t + "/")[|t|];
    assert x[|t|] in x;
  }

  lemma UnderTransitive(x: string, y: string, z: string)
    requires Under(x, y) && Under(y, z)
    ensures Under(x, z)
  {
    assert x[..|y|] == y;
  }

  // Two directories above the same one are in line.
  lemma UnderInLine(x: string, p: string, q: string)
    requires Under(x, p) && Under(x, q) && |p| <= |q|
    ensures Under(q, p)
  {
    assert q == x[..|q|] && p == x[..|p|];
  }

  lemma ParentAbove(d: string)
    requires '/' in d
    ensures Under(d, Parent(d)) && Parent(d) != d
  {
  }

  // Strictly below p, the parent is still at or below p.
  lemma BelowParent(d: string, p: string)
    requires Under(d, p) && d != p
    ensures '/' in d && Under(Parent(d), p)
  {
    assert d[|p|] == '/' && d[|p|] in d;
    assert LastSlash(d) >= |p|;
  }

  // The next directory on the way from p down to x.
  function StepTowards(x: string, p: string): (c: string)
    requires Under(x, p) && x != p
    ensures Under(x, c) && Under(c, p) && c != p && Parent(c) == p
  {
    var c := FirstPart(x, |p| + 1);
    StepFacts(x, p);
    c
  }

  // x up to the first slash at or after position i.
  function FirstPart(x: string, i: nat): (c: string)
    requires i <= |x|
    ensures i <= |c| <= |x| && c == x[..|c|] && (|c| == |x| || x[|c|] == '/') && '/' !in c[i..]
    decreases |x| - i
  {
    if i == |x| || x[i] == '/' then x[..i]
    else
      var c := FirstPart(x, i + 1);
      assert c[i..] == [x[i]] + c[i + 1..];
      c
  }

  lemma StepFacts(x: string, p: string)
    requires Under(x, p) && x != p
    ensures var c := FirstPart(x, |p| + 1);
        Under(x, c) && Under(c, p) && c != p && '/' in c && Parent(c) == p
  {
    var c := FirstPart(x, |p| + 1);
    assert c[|p|] == '/' && c[|p|] in c;
    assert LastSlash(c) == |p|;
  }
}

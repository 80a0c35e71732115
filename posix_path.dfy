/** The POSIX `dirname` used to reach a parent directory: the part of a path
    up to its last `/`, with trailing slashes removed unless that part is made
    only of slashes; a path without any `/` has the empty string as its parent. */
module PosixPath {

  predicate AllSlashes(s: string) {
    forall k :: 0 <= k < |s| ==> s[k] == '/'
  }

  /** The index just past the last `/` of `p`, or 0 when `p` has none. */
  function HeadEnd(p: string): (i: nat)
    ensures i <= |p|
    ensures i > 0 ==> p[i - 1] == '/'
    ensures forall k :: i <= k < |p| ==> p[k] != '/'
  {
    if p == [] then 0
    else if p[|p| - 1] == '/' then |p|
    else HeadEnd(p[..|p| - 1])
  }

  /** `s` without its trailing slashes. */
  function RStripSlashes(s: string): (r: string)
    ensures r <= s
    ensures r == [] || r[|r| - 1] != '/'
    ensures forall k :: |r| <= k < |s| ==> s[k] == '/'
  {
    if s != [] && s[|s| - 1] == '/' then RStripSlashes(s[..|s| - 1]) else s
  }

  /** The parent directory of `p`: the part before the last `/`, without the
      slashes that end it unless it is made only of slashes. */
  function Dirname(p: string): (r: string)
    ensures r <= p[..HeadEnd(p)] <= p
    ensures forall k :: |r| <= k < HeadEnd(p) ==> p[k] == '/'
    ensures r == "" <==> '/' !in p
    ensures r != "" && !AllSlashes(r) ==> r[|r| - 1] != '/'
    ensures AllSlashes(r) ==> r == p[..HeadEnd(p)]
  {
    var head := p[..HeadEnd(p)];
    if head != [] && !AllSlashes(head) then RStripSlashes(head) else head
  }

  /** The parent of `parent/leaf` is `parent` when `leaf` is one segment and
      `parent` is a non-empty path without a trailing slash. */
  lemma {:induction false} DirnameOfJoin(parent: string, leaf: string)
    requires parent != "" && parent[|parent| - 1] != '/'
    requires '/' !in leaf
    ensures Dirname(parent + "/" + leaf) == parent
  {
    var p := parent + "/" + leaf;
    HeadEndOfJoin(parent, leaf);
    assert p[..HeadEnd(p)] == parent + "/";
    assert !AllSlashes(parent + "/") by {
      assert (parent + "/")[|parent| - 1] == parent[|parent| - 1];
    }
    assert (parent + "/")[..|parent|] == parent;
  }

  lemma {:induction false} HeadEndOfJoin(parent: string, leaf: string)
    requires '/' !in leaf
    ensures HeadEnd(parent + "/" + leaf) == |parent| + 1
  {
    var p := parent + "/" + leaf;
    assert p[|parent|] == '/';
    assert forall k :: |parent| < k < |p| ==> p[k] == leaf[k - |parent| - 1];
  }

  /** A configured path that ends with a slash is its own parent: the
      trailing slash hides the last segment from the parent lookup. */
  lemma DirnameOfTrailingSlash(dir: string)
    requires dir != "" && dir[|dir| - 1] != '/'
    ensures Dirname(dir + "/") == dir
  {
    DirnameOfJoin(dir, "");
    assert dir + "/" + "" == dir + "/";
  }

  /** Doubled, leading and trailing slashes, as Python's `posixpath.dirname` treats them. */
  lemma DirnameSlashCases()
    ensures Dirname("a//b") == "a"
    ensures Dirname("/b") == "/"
    ensures Dirname("a/b//") == "a/b"
  {
    var doubled, rooted, trailing := "a//b", "/b", "a/b//";
    assert HeadEnd(doubled) == 3 by {
      assert doubled[2] == '/' && doubled[3] != '/';
    }
    var d := Dirname(doubled);
    assert d != "" && d[0] == 'a' && !AllSlashes(d);
    assert |d| == 1 && d == doubled[..1];

    assert HeadEnd(rooted) == 1 by {
      assert rooted[0] == '/' && rooted[1] != '/';
    }
    assert Dirname(rooted) == rooted[..1];

    assert HeadEnd(trailing) == 5 by {
      assert trailing[4] == '/';
    }
    var t := Dirname(trailing);
    assert t != "" && t[0] == 'a' && !AllSlashes(t);
    assert |t| >= 3 by {
      assert trailing[2] != '/';
    }
    assert |t| == 3 && t == trailing[..3];
  }

  /** A single-segment path has the empty string as its parent. */
  lemma DirnameOfSegment(p: string)
    requires '/' !in p
    ensures Dirname(p) == ""
  {
  }

  /** A path made only of slashes is its own parent. */
  lemma DirnameOfRoot(p: string)
    requires AllSlashes(p)
    ensures Dirname(p) == p
  {
    if p != [] {
      assert p[|p| - 1] == '/';
      assert p[..|p|] == p;
    }
  }
}

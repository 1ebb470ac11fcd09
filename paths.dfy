/** The two string operations the task aggregator needs: Python's
    `str.endswith` and POSIX `os.path.dirname`. */
module Paths {

  /** `s.endswith(suffix)`. */
  predicate EndsWith(s: string, suffix: string)
  {
    |suffix| <= |s| && s[|s| - |suffix|..] == suffix
  }

  /** No path separator anywhere in `s`. */
  predicate NoSlash(s: string)
  {
    forall j :: 0 <= j < |s| ==> s[j] != '/'
  }

  predicate AllSlashes(s: string)
  {
    forall j :: 0 <= j < |s| ==> s[j] == '/'
  }

  /** One past the last '/' of `p`, or 0 when `p` has none. */
  function SplitIndex(p: string): (i: nat)
    ensures i <= |p|
    ensures i > 0 ==> p[i - 1] == '/'
    ensures forall j :: i <= j < |p| ==> p[j] != '/'
  {
    if p == [] then 0
    else if p[|p| - 1] == '/' then |p|
    else SplitIndex(p[..|p| - 1])
  }

  /** `s.rstrip('/')`. */
  function StripTrailingSlashes(s: string): (t: string)
    ensures t <= s
    ensures t == [] || t[|t| - 1] != '/'
    ensures forall j :: |t| <= j < |s| ==> s[j] == '/'
  {
    if s != [] && s[|s| - 1] == '/' then StripTrailingSlashes(s[..|s| - 1]) else s
  }

  /** `os.path.dirname(p)`: everything up to the last '/', with trailing
      slashes removed unless the head consists of slashes only. */
  function Dirname(p: string): (d: string)
    ensures d <= p
  {
    var head := p[..SplitIndex(p)];
    if head != [] && !AllSlashes(head) then StripTrailingSlashes(head) else head
  }

  /** A bare file name, as a directory walk lists it, has an empty dirname. */
  lemma DirnameOfBareName(name: string)
    requires NoSlash(name)
    ensures Dirname(name) == ""
  {
  }

  /** The directory of a file named relative to a walk root, when the root
      does not end in '/', is that root. */
  lemma DirnameOfJoined(root: string, name: string)
    requires root != [] && root[|root| - 1] != '/'
    requires NoSlash(name)
    ensures Dirname(root + "/" + name) == root
  {
    var p := root + "/" + name;
    var i := SplitIndex(p);
    assert p[|root|] == '/';
    assert forall j :: |root| + 1 <= j < |p| ==> p[j] == name[j - |root| - 1];
    assert i == |root| + 1;
    var head := p[..i];
    assert head == root + "/";
    assert !AllSlashes(head) by {
      assert head[|root| - 1] == root[|root| - 1];
    }
    assert head[..|head| - 1] == root;
    assert StripTrailingSlashes(head) == StripTrailingSlashes(root);
  }

}

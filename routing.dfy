/**
  Rule routing, `indexOfDir` (index.js:20-28): the index of the LAST
  configured base path that is a string prefix of the path, or -1. A later
  rule overrides an earlier one; this is not longest-prefix matching.
 */
module Routing {
  import opened Text

  /** The reference definition: scan from the end for a matching prefix. */
  function Route(basePaths: seq<string>, f: string): (r: int)
    ensures -1 <= r < |basePaths|
    ensures r >= 0 ==> StartsWith(f, basePaths[r])
    ensures forall i :: r < i < |basePaths| ==> !StartsWith(f, basePaths[i])
  {
    if basePaths == [] then -1
    else if StartsWith(f, basePaths[|basePaths| - 1]) then |basePaths| - 1
    else Route(basePaths[..|basePaths| - 1], f)
  }

  /** The `forEach` loop: every matching index overwrites the previous one. */
  method IndexOfDir(basePaths: seq<string>, f: string) returns (index: int)
    ensures index == Route(basePaths, f)
  {
    index := -1;
    var i := 0;
    while i < |basePaths|
      invariant 0 <= i <= |basePaths|
      invariant index == Route(basePaths[..i], f)
    {
      assert basePaths[..i + 1][..i] == basePaths[..i];
      if StartsWith(f, basePaths[i]) {
        index := i;
      }
      i := i + 1;
    }
    assert basePaths[..i] == basePaths;
  }

  /** A shorter base path listed after a longer one takes the path: the
      rule is the last match, not the longest. */
  lemma NotLongestPrefix(basePaths: seq<string>, f: string)
    requires basePaths == ["/photos/trips", "/photos"] && f == "/photos/trips/a.jpg"
    ensures Route(basePaths, f) == 1
    ensures StartsWith(f, basePaths[0]) && |basePaths[0]| > |basePaths[1]|
  {
    assert f[..|"/photos"|] == "/photos";
    assert f[..|"/photos/trips"|] == "/photos/trips";
  }
}

/**
  The path handling of the uploader: the `~/` branch of `resolvePath`
  (index.js:74-79) and the three Node `path` functions key derivation uses,
  `path.posix.dirname`, `path.posix.basename` and `path.join`.
 */
module Paths {
  import opened Text

  predicate IsSlash(c: char) { c == '/' }

  /** The value of an environment variable when it is set to a non-empty
      string, the only values JavaScript's `||` does not skip. */
  function EnvValue(env: map<string, string>, name: string): Option<string> {
    if name in env && env[name] != "" then Some(env[name]) else None
  }

  /** `a || b || ... || fallback` over environment variables. */
  function FirstSet(env: map<string, string>, names: seq<string>, fallback: string): string {
    if names == [] then fallback
    else match EnvValue(env, names[0])
      case Some(v) => v
      case None => FirstSet(env, names[1..], fallback)
  }

  /** `FirstSet` picks the value of the first name that is set, or the
      fallback when none is. */
  lemma {:induction false} FirstSetChoice(env: map<string, string>, names: seq<string>, fallback: string)
    ensures var r := FirstSet(env, names, fallback);
      || ((forall k :: 0 <= k < |names| ==> EnvValue(env, names[k]).None?) && r == fallback)
      || (exists k :: 0 <= k < |names| && EnvValue(env, names[k]) == Some(r)
           && forall j :: 0 <= j < k ==> EnvValue(env, names[j]).None?)
  {
    if names != [] {
      var r := FirstSet(env, names, fallback);
      if EnvValue(env, names[0]).None? {
        FirstSetChoice(env, names[1..], fallback);
        if !(forall k :: 0 <= k < |names[1..]| ==> EnvValue(env, names[1..][k]).None?) {
          var k :| 0 <= k < |names[1..]| && EnvValue(env, names[1..][k]) == Some(r)
            && forall j :: 0 <= j < k ==> EnvValue(env, names[1..][j]).None?;
          assert EnvValue(env, names[k + 1]) == Some(r);
          assert forall j :: 0 <= j < k + 1 ==> EnvValue(env, names[j]).None? by {
            forall j | 0 <= j < k + 1 ensures EnvValue(env, names[j]).None? {
              if j > 0 { assert names[j] == names[1..][j - 1]; }
            }
          }
        } else {
          forall k | 0 <= k < |names| ensures EnvValue(env, names[k]).None? {
            if k > 0 { assert names[k] == names[1..][k - 1]; }
          }
        }
      } else {
        assert EnvValue(env, names[0]) == Some(r);
      }
    }
  }

  /** The home directory `resolvePath` substitutes for `~`: HOME, then
      HOMEPATH, then HOMEDIR, then the working directory. */
  function HomeDir(env: map<string, string>, cwd: string): string {
    FirstSet(env, ["HOME", "HOMEPATH", "HOMEDIR"], cwd)
  }

  lemma HomeDirPrecedence(env: map<string, string>, cwd: string)
    ensures EnvValue(env, "HOME").Some? ==> HomeDir(env, cwd) == env["HOME"]
    ensures EnvValue(env, "HOME").None? && EnvValue(env, "HOMEPATH").Some? ==> HomeDir(env, cwd) == env["HOMEPATH"]
    ensures EnvValue(env, "HOME").None? && EnvValue(env, "HOMEPATH").None? && EnvValue(env, "HOMEDIR").Some?
      ==> HomeDir(env, cwd) == env["HOMEDIR"]
    ensures EnvValue(env, "HOME").None? && EnvValue(env, "HOMEPATH").None? && EnvValue(env, "HOMEDIR").None?
      ==> HomeDir(env, cwd) == cwd
  {
    var n0: seq<string> := ["HOME", "HOMEPATH", "HOMEDIR"];
    var n1: seq<string> := ["HOMEPATH", "HOMEDIR"];
    var n2: seq<string> := ["HOMEDIR"];
    assert n0[1..] == n1 && n1[1..] == n2 && n2[1..] == [];
    assert FirstSet(env, n2, cwd) == if EnvValue(env, "HOMEDIR").Some? then env["HOMEDIR"] else cwd;
    assert FirstSet(env, n1, cwd) == if EnvValue(env, "HOMEPATH").Some? then env["HOMEPATH"] else FirstSet(env, n2, cwd);
    assert FirstSet(env, n0, cwd) == if EnvValue(env, "HOME").Some? then env["HOME"] else FirstSet(env, n1, cwd);
  }

  /** The `~/` branch of `resolvePath`: a leading `~` followed by `/` is
      replaced by the home directory; any other string is left alone for
      `path.resolve`. */
  function ExpandTilde(s: string, home: string): (r: string)
    ensures (home == [] || home[0] != '~') && StartsWith(s, "~/") ==> !StartsWith(r, "~/")
  {
    if |s| >= 2 && s[..2] == "~/" then
      var r := home + s[1..];
      assert r[0] == if home == [] then '/' else home[0];
      r
    else s
  }

  /** Expansion happens at most once: with a home directory that does not
      itself start with `~`, expanding again changes nothing. */
  lemma ExpandTildeOnce(s: string, home: string)
    requires home == [] || home[0] != '~'
    ensures ExpandTilde(ExpandTilde(s, home), home) == ExpandTilde(s, home)
  {
  }

  /** The last character of `s` before position `j` that is not a slash, or -1. */
  function LastNonSlash(s: string, j: nat): (r: int)
    requires j <= |s|
    ensures -1 <= r < j
    ensures r >= 0 ==> s[r] != '/'
    ensures forall k :: r < k < j ==> s[k] == '/'
  {
    if j == 0 then -1 else if s[j - 1] != '/' then j - 1 else LastNonSlash(s, j - 1)
  }

  /** The last slash of `s` before position `j`, or -1. */
  function LastSlash(s: string, j: nat): (r: int)
    requires j <= |s|
    ensures -1 <= r < j
    ensures r >= 0 ==> s[r] == '/'
    ensures forall k :: r < k < j ==> s[k] != '/'
  {
    if j == 0 then -1 else if s[j - 1] == '/' then j - 1 else LastSlash(s, j - 1)
  }

  /** `path.posix.basename`: the last segment, trailing slashes ignored. */
  function Basename(s: string): (r: string)
    ensures '/' !in r
  {
    var e := LastNonSlash(s, |s|);
    if e == -1 then ""
    else
      var b := LastSlash(s, e);
      var r := s[b + 1..e + 1];
      assert forall k :: 0 <= k < |r| ==> r[k] != '/' by {
        forall k | 0 <= k < |r| ensures r[k] != '/' {
          assert r[k] == s[b + 1 + k];
        }
      }
      r
  }

  /** `path.posix.dirname`: everything before the slash that precedes the
      last segment, `/` for a segment directly under the root, `//` for one
      under a doubled root, `.` when there is no slash. */
  function Dirname(s: string): string {
    if s == [] then "."
    else
      var e := LastNonSlash(s, |s|);
      var end := if e == -1 then -1 else LastSlash(s, e);
      var hasRoot := s[0] == '/';
      if end <= 0 then (if hasRoot then "/" else ".")
      else if hasRoot && end == 1 then "//"
      else s[..end]
  }

  /** Splitting a file path built as `dir + "/" + name` gives the parts back,
      as long as `dir` does not end with a slash and `name` holds none. */
  lemma SplitJoined(d: string, b: string)
    requires d != [] && d[|d| - 1] != '/'
    requires b != [] && '/' !in b
    ensures Dirname(d + "/" + b) == d
    ensures Basename(d + "/" + b) == b
  {
    var s := d + "/" + b;
    SplitPositions(d, b);
    assert s[|d| + 1..] == b;
    assert s[..|d|] == d;
  }

  /** The directory of `dir + "/" + name` depends on `dir` alone, for any
      `dir`: the root `/` gives the doubled root `//`, and the empty string
      gives `/`. */
  lemma DirnameOfEntry(d: string, b: string)
    requires b != [] && '/' !in b
    ensures Dirname(d + "/" + b) == if d == "" then "/" else if d == "/" then "//" else d
  {
    var s := d + "/" + b;
    SplitPositions(d, b);
    assert s[0] == if d == "" then '/' else d[0];
    assert s[..|d|] == d;
  }

  lemma SplitPositions(d: string, b: string)
    requires b != [] && '/' !in b
    ensures LastNonSlash(d + "/" + b, |d + "/" + b|) == |d + "/" + b| - 1
    ensures LastSlash(d + "/" + b, |d + "/" + b| - 1) == |d|
  {
    var s := d + "/" + b;
    assert s[|s| - 1] == b[|b| - 1];
    assert s[|d|] == '/';
    forall k | |d| < k < |s| - 1 ensures s[k] != '/' {
      assert s[k] == b[k - |d| - 1];
    }
    LastSlashAfter(s, |d|, |s| - 1);
  }

  lemma {:induction false} LastSlashAfter(s: string, i: nat, j: nat)
    requires i < j <= |s|
    requires s[i] == '/'
    requires forall k :: i < k < j ==> s[k] != '/'
    ensures LastSlash(s, j) == i
    decreases j - i
  {
    if j - 1 > i {
      LastSlashAfter(s, i, j - 1);
    }
  }

  /** `path.join` of two parts: the non-empty parts joined by `/`, every run
      of slashes collapsed to one, `.` for an empty result. Dot segments
      (`.` and `..`) are assumed absent and are not resolved. */
  function Join(a: string, b: string): string {
    var joined := if a == "" then b else if b == "" then a else a + "/" + b;
    if joined == "" then "." else ReplaceRuns(joined, IsSlash, '/')
  }

  /** A joined path holds no doubled slash. */
  lemma JoinCollapsed(a: string, b: string)
    ensures var r := Join(a, b); forall k :: 0 <= k < |r| - 1 ==> !(r[k] == '/' && r[k + 1] == '/')
  {
    var joined := if a == "" then b else if b == "" then a else a + "/" + b;
    if joined != "" {
      RunsCollapsed(joined, 0, IsSlash, '/');
    }
  }

  lemma SlashDropped(a: string, b: string)
    ensures Drop(a + "/" + b, IsSlash) == Drop(a + b, IsSlash)
  {
    DropConcat(a + "/", b, IsSlash);
    DropConcat(a, "/", IsSlash);
    DropConcat(a, b, IsSlash);
    assert Drop("/", IsSlash) == [];
  }

  /** Length of the segment at the front of `s`: the position of the first
      slash, or the whole string. */
  function SegmentEnd(s: string): (n: nat)
    ensures n <= |s|
  {
    if s == [] || s[0] == '/' then 0 else 1 + SegmentEnd(s[1..])
  }

  /** The non-empty segments of a path, in order: the pieces between its
      slashes, as `split('/')` followed by dropping the empty parts yields
      them. */
  function Segments(s: string): seq<string>
    decreases |s|
  {
    if s == [] then []
    else if s[0] == '/' then Segments(s[1..])
    else
      var n := SegmentEnd(s);
      [s[..n]] + Segments(s[n..])
  }

  /** A slash after the front segment, or the end, does not move its end. */
  lemma {:induction false} SegmentEndConcat(a: string, c: string)
    requires c == [] || c[0] == '/'
    ensures SegmentEnd(a + c) == SegmentEnd(a)
    decreases |a|
  {
    if a == [] {
      assert a + c == c;
    } else if a[0] != '/' {
      assert (a + c)[1..] == a[1..] + c;
      SegmentEndConcat(a[1..], c);
    }
  }

  /** A slash-free string is all front segment. */
  lemma {:induction false} SegmentEndWhole(s: string)
    requires forall k :: 0 <= k < |s| ==> s[k] != '/'
    ensures SegmentEnd(s) == |s|
    decreases |s|
  {
    if s != [] {
      assert forall k :: 0 <= k < |s| - 1 ==> s[1..][k] == s[k + 1];
      SegmentEndWhole(s[1..]);
    }
  }

  /** A slash-free, non-empty string is one segment. */
  lemma SingleSegment(s: string)
    requires s != [] && forall k :: 0 <= k < |s| ==> s[k] != '/'
    ensures Segments(s) == [s]
  {
    SegmentEndWhole(s);
    assert s[..|s|] == s;
    assert s[|s|..] == [];
  }

  /** Where a slash separates two strings, the segments of both together
      are the segments of each, in order. */
  lemma {:induction false} SegmentsSplit(a: string, c: string)
    requires c == [] || c[0] == '/'
    ensures Segments(a + c) == Segments(a) + Segments(c)
    decreases |a|
  {
    if a == [] {
      assert a + c == c;
    } else if a[0] == '/' {
      assert (a + c)[1..] == a[1..] + c;
      SegmentsSplit(a[1..], c);
    } else {
      var n := SegmentEnd(a);
      SegmentEndConcat(a, c);
      assert (a + c)[..n] == a[..n];
      assert (a + c)[n..] == a[n..] + c;
      SegmentsSplit(a[n..], c);
    }
  }

  /** A slash on either side adds no segment. */
  lemma SlashSegments(a: string)
    ensures Segments("/" + a) == Segments(a)
    ensures Segments(a + "/") == Segments(a)
  {
    assert ("/" + a)[1..] == a;
    SegmentsSplit(a, "/");
    assert "/"[1..] == [];
  }

  lemma {:induction false} SkipSlashes(s: string, i: nat, e: nat)
    requires i <= e <= |s|
    requires forall k :: i <= k < e ==> s[k] == '/'
    ensures Segments(s[i..]) == Segments(s[e..])
    decreases e - i
  {
    if i < e {
      assert s[i..][1..] == s[i + 1..];
      SkipSlashes(s, i + 1, e);
    }
  }

  predicate NotSlash(c: char) { c != '/' }

  /** Collapsing runs of slashes from position `i` keeps the segments. */
  lemma {:induction false} RunsKeepSegments(s: string, i: nat)
    requires i <= |s|
    ensures Segments(RunsFrom(s, i, IsSlash, '/')) == Segments(s[i..])
    decreases |s| - i
  {
    if i < |s| {
      if s[i] == '/' {
        var e := RunEnd(s, i, IsSlash);
        RunsKeepSegments(s, e);
        SlashSegments(RunsFrom(s, e, IsSlash, '/'));
        SkipSlashes(s, i, e);
      } else {
        var e := RunEnd(s, i, NotSlash);
        RunsPlain(s, i, e, IsSlash, '/');
        RunsKeepSegments(s, e);
        var seg := s[i..e];
        var rest := RunsFrom(s, e, IsSlash, '/');
        assert rest == [] || rest[0] == '/';
        SegmentsSplit(seg, rest);
        SegmentsSplit(seg, s[e..]);
        assert s[i..] == seg + s[e..];
        SingleSegment(seg);
      }
    }
  }

  /** Collapsing every run of slashes keeps the segments. */
  lemma CollapsedSegments(s: string)
    ensures Segments(ReplaceRuns(s, IsSlash, '/')) == Segments(s)
  {
    RunsKeepSegments(s, 0);
    assert s[0..] == s;
  }

  lemma JoinedSegments(a: string, b: string)
    requires a + b != ""
    ensures Segments(Join(a, b)) == Segments(a) + Segments(b)
  {
    var joined := if a == "" then b else if b == "" then a else a + "/" + b;
    CollapsedSegments(joined);
    if a != "" && b != "" {
      assert joined == a + ("/" + b);
      SegmentsSplit(a, "/" + b);
      SlashSegments(b);
    }
  }

  lemma JoinedCharacters(a: string, b: string)
    requires a + b != ""
    ensures Drop(Join(a, b), IsSlash) == Drop(a + b, IsSlash)
  {
    var joined := if a == "" then b else if b == "" then a else a + "/" + b;
    ReplaceRunsKeepsOthers(joined, IsSlash, '/', IsSlash);
    if a != "" && b != "" {
      SlashDropped(a, b);
    } else {
      assert joined == a + b;
    }
  }

  /** `path.join` puts its parts one after the other with a slash between
      them: the segments of the join are those of `a` followed by those of
      `b`, and no character other than a slash is lost or added. Two empty
      parts give `.`. */
  lemma JoinKeepsSegments(a: string, b: string)
    ensures a == "" && b == "" ==> Join(a, b) == "."
    ensures a + b != "" ==> Segments(Join(a, b)) == Segments(a) + Segments(b)
    ensures a + b != "" ==> Drop(Join(a, b), IsSlash) == Drop(a + b, IsSlash)
  {
    if a + b != "" {
      JoinedSegments(a, b);
      JoinedCharacters(a, b);
    }
  }
}

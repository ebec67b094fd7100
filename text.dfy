/**
  The JavaScript string built-ins the uploader relies on (startsWith,
  endsWith, indexOf, replace with a string pattern, trim, regular-expression
  style run replacement, Array.join, Number.toString), modelled on Dafny
  strings, and the host library calls that stay uninterpreted.
 */
module Text {

  datatype Option<+T> = None | Some(value: T)

  /** Library code the model does not reimplement: String.prototype.toLowerCase,
      unorm.nfkd and the hex digest of crypto's SHA-1. */
  datatype Host = Host(lower: string -> string, nfkd: string -> string, sha1Hex: string -> string)

  /** A SHA-1 hex digest is forty characters long, so never empty. */
  ghost predicate DigestShaped(h: Host) {
    forall s :: |h.sha1Hex(s)| == 40
  }

  predicate IsAscii(s: string) {
    forall i :: 0 <= i < |s| ==> s[i] < '\U{80}'
  }

  predicate IsUpper(c: char) { 'A' <= c <= 'Z' }

  function LowerChar(c: char): char {
    if IsUpper(c) then (c as int + 32) as char else c
  }

  /** toLowerCase restricted to ASCII, where it maps exactly A-Z to a-z. */
  function AsciiLower(s: string): (r: string)
    ensures |r| == |s|
    ensures forall i :: 0 <= i < |s| ==> !IsUpper(r[i])
    ensures forall i :: 0 <= i < |s| ==> (IsUpper(s[i]) || r[i] == s[i])
    ensures IsAscii(s) ==> IsAscii(r)
  {
    seq(|s|, i requires 0 <= i < |s| => LowerChar(s[i]))
  }

  /** On ASCII strings the host's lowercase is the A-Z mapping and NFKD
      decomposition changes nothing. */
  ghost predicate AsciiFaithful(h: Host) {
    forall s :: IsAscii(s) ==> h.lower(s) == AsciiLower(s) && h.nfkd(s) == s
  }

  /** The characters of JavaScript's `\s` class, which are also the ones
      String.prototype.trim removes. */
  predicate IsWhitespace(c: char) {
    c == '\t' || c == '\n' || c == '\U{0B}' || c == '\U{0C}' || c == '\r' || c == ' '
    || c == '\U{A0}' || c == '\U{1680}' || ('\U{2000}' <= c <= '\U{200A}')
    || c == '\U{2028}' || c == '\U{2029}' || c == '\U{202F}' || c == '\U{205F}'
    || c == '\U{3000}' || c == '\U{FEFF}'
  }

  /** No character of `s` is of class `p`. */
  predicate Free(s: string, p: char -> bool) {
    forall i :: 0 <= i < |s| ==> !p(s[i])
  }

  predicate StartsWith(s: string, prefix: string) {
    |prefix| <= |s| && s[..|prefix|] == prefix
  }

  predicate EndsWith(s: string, suffix: string) {
    |suffix| <= |s| && s[|s| - |suffix|..] == suffix
  }

  lemma ConcatEnds(a: string, b: string)
    ensures StartsWith(a + b, a) && EndsWith(a + b, b)
    ensures (a + b)[..|a|] == a && (a + b)[|a|..] == b
  {
  }

  lemma CancelRight(a: string, a': string, t: string)
    requires a + t == a' + t
    ensures a == a'
  {
    assert |a| == |a'|;
    assert a == (a + t)[..|a|];
    assert a' == (a' + t)[..|a'|];
  }

  lemma CancelLeft(p: string, x: string, x': string)
    requires p + x == p + x'
    ensures x == x'
  {
    assert x == (p + x)[|p|..];
    assert x' == (p + x')[|p|..];
  }

  predicate OccursAt(s: string, pat: string, j: int) {
    0 <= j && j + |pat| <= |s| && s[j..j + |pat|] == pat
  }

  /** String.prototype.indexOf: the first position where `pat` occurs, or -1. */
  function IndexOf(s: string, pat: string): (r: int)
    ensures r == -1 || OccursAt(s, pat, r)
    ensures r == -1 ==> forall j :: 0 <= j <= |s| ==> !OccursAt(s, pat, j)
    ensures forall j :: 0 <= j < r ==> !OccursAt(s, pat, j)
    decreases |s|
  {
    if StartsWith(s, pat) then 0
    else if s == [] then -1
    else
      var k := IndexOf(s[1..], pat);
      OccursShift(s, pat);
      if k == -1 then -1 else k + 1
  }

  lemma OccursShift(s: string, pat: string)
    requires s != []
    ensures forall j :: 1 <= j <= |s| ==> OccursAt(s, pat, j) == OccursAt(s[1..], pat, j - 1)
  {
    forall j | 1 <= j <= |s| ensures OccursAt(s, pat, j) == OccursAt(s[1..], pat, j - 1) {
      if j + |pat| <= |s| {
        var t := s[1..];
        assert t[j - 1..] == s[j..];
        assert t[j - 1..j - 1 + |pat|] == t[j - 1..][..|pat|];
        assert s[j..j + |pat|] == s[j..][..|pat|];
      }
    }
  }

  /** `s.replace(pat, '')` with a string pattern: only the first occurrence goes. */
  function RemoveFirst(s: string, pat: string): (r: string)
    ensures IndexOf(s, pat) == -1 ==> r == s
    ensures IndexOf(s, pat) >= 0 ==> |r| == |s| - |pat|
    ensures var i := IndexOf(s, pat); i >= 0 ==> r[..i] + pat + r[i..] == s
  {
    var i := IndexOf(s, pat);
    if i == -1 then s
    else
      var r := s[..i] + s[i + |pat|..];
      assert r[..i] == s[..i] && r[i..] == s[i + |pat|..];
      assert s == s[..i] + s[i..i + |pat|] + s[i + |pat|..];
      r
  }

  lemma RemoveFirstPrefix(s: string, pat: string)
    requires StartsWith(s, pat)
    ensures RemoveFirst(s, pat) == s[|pat|..]
  {
    assert IndexOf(s, pat) == 0;
  }

  /** Array.prototype.filter. */
  function Filter<T>(s: seq<T>, keep: T -> bool): (r: seq<T>)
    ensures |r| <= |s|
    ensures forall i :: 0 <= i < |r| ==> keep(r[i]) && r[i] in s
    ensures forall i :: 0 <= i < |s| && keep(s[i]) ==> s[i] in r
    ensures (forall i :: 0 <= i < |s| ==> keep(s[i])) ==> r == s
  {
    if s == [] then []
    else (if keep(s[0]) then [s[0]] else []) + Filter(s[1..], keep)
  }

  /** Filtering keeps the order: it distributes over concatenation. */
  lemma {:induction false} FilterConcat<T>(a: seq<T>, b: seq<T>, keep: T -> bool)
    ensures Filter(a + b, keep) == Filter(a, keep) + Filter(b, keep)
  {
    if a == [] {
      assert a + b == b;
    } else {
      var head := if keep(a[0]) then [a[0]] else [];
      assert (a + b)[0] == a[0] && (a + b)[1..] == a[1..] + b;
      FilterConcat(a[1..], b, keep);
      calc {
        Filter(a + b, keep);
        head + Filter(a[1..] + b, keep);
        head + (Filter(a[1..], keep) + Filter(b, keep));
        (head + Filter(a[1..], keep)) + Filter(b, keep);
        Filter(a, keep) + Filter(b, keep);
      }
    }
  }

  /** A global regular-expression replace that deletes every character of a
      class: `s.replace(/[class]/g, '')`. */
  function Drop(s: string, gone: char -> bool): (r: string)
    ensures |r| <= |s|
  {
    if s == [] then [] else (if gone(s[0]) then [] else [s[0]]) + Drop(s[1..], gone)
  }

  /** The output holds exactly the input's characters outside the class. */
  lemma {:induction false} DropMembers(s: string, gone: char -> bool)
    ensures forall i :: 0 <= i < |Drop(s, gone)| ==> !gone(Drop(s, gone)[i]) && Drop(s, gone)[i] in s
    ensures forall i :: 0 <= i < |s| && !gone(s[i]) ==> s[i] in Drop(s, gone)
  {
    if s != [] {
      DropMembers(s[1..], gone);
      assert forall i :: 1 <= i < |s| ==> s[i] == s[1..][i - 1];
    }
  }

  /** Nothing to delete: the string is unchanged. */
  lemma {:induction false} DropAbsent(s: string, gone: char -> bool)
    requires Free(s, gone)
    ensures Drop(s, gone) == s
  {
    if s != [] {
      DropAbsent(s[1..], gone);
      assert s == [s[0]] + s[1..];
    }
  }

  /** Deleting keeps the order: it distributes over concatenation. */
  lemma {:induction false} DropConcat(a: string, b: string, gone: char -> bool)
    ensures Drop(a + b, gone) == Drop(a, gone) + Drop(b, gone)
  {
    if a == [] {
      assert a + b == b;
    } else {
      assert (a + b)[0] == a[0] && (a + b)[1..] == a[1..] + b;
      DropConcat(a[1..], b, gone);
    }
  }

  /** Deleting a class of characters before deleting a larger class changes nothing. */
  lemma {:induction false} DropAbsorbed(s: string, q: char -> bool, p: char -> bool)
    requires forall x :: q(x) ==> p(x)
    ensures Drop(Drop(s, q), p) == Drop(s, p)
  {
    if s != [] {
      DropAbsorbed(s[1..], q, p);
      var head := if q(s[0]) then [] else [s[0]];
      assert Drop(s, q) == head + Drop(s[1..], q);
      DropConcat(head, Drop(s[1..], q), p);
      assert s == [s[0]] + s[1..];
      DropConcat([s[0]], s[1..], p);
    }
  }

  /** Equal deletions compose. */
  lemma DropCompose(a: string, b: string, c: string, d: string, gone: char -> bool)
    requires Drop(a, gone) == Drop(c, gone) && Drop(b, gone) == Drop(d, gone)
    ensures Drop(a + b, gone) == Drop(c + d, gone)
  {
    DropConcat(a, b, gone);
    DropConcat(c, d, gone);
  }

  /** The end of the run of class `p` that starts at position `i`. */
  function RunEnd(s: string, i: nat, p: char -> bool): (r: nat)
    requires i <= |s|
    ensures i <= r <= |s|
    ensures forall k :: i <= k < r ==> p(s[k])
    ensures r < |s| ==> !p(s[r])
    decreases |s| - i
  {
    if i < |s| && p(s[i]) then RunEnd(s, i + 1, p) else i
  }

  /** A global replace of the pattern `[class]+` by the single character `c`,
      scanning `s` from position `i`: every maximal run becomes one `c`. */
  function RunsFrom(s: string, i: nat, inRun: char -> bool, c: char): (r: string)
    requires i <= |s|
    ensures |r| <= |s| - i
    decreases |s| - i
  {
    if i == |s| then []
    else if inRun(s[i]) then [c] + RunsFrom(s, RunEnd(s, i, inRun), inRun, c)
    else [s[i]] + RunsFrom(s, i + 1, inRun, c)
  }

  function ReplaceRuns(s: string, inRun: char -> bool, c: char): string {
    RunsFrom(s, 0, inRun, c)
  }

  /** Every character of the output is `c` or a character of the input outside
      the class. */
  lemma {:induction false} RunsChars(s: string, i: nat, inRun: char -> bool, c: char)
    requires i <= |s|
    ensures forall k :: 0 <= k < |RunsFrom(s, i, inRun, c)| ==>
      RunsFrom(s, i, inRun, c)[k] == c || (!inRun(RunsFrom(s, i, inRun, c)[k]) && RunsFrom(s, i, inRun, c)[k] in s)
    decreases |s| - i
  {
    if i < |s| {
      RunsChars(s, if inRun(s[i]) then RunEnd(s, i, inRun) else i + 1, inRun, c);
    }
  }

  /** The output starts with the replacement of the first character, and no
      two characters of the class are adjacent in it. */
  lemma {:induction false} RunsCollapsed(s: string, i: nat, inRun: char -> bool, c: char)
    requires i <= |s|
    ensures var r := RunsFrom(s, i, inRun, c);
      i < |s| ==> |r| > 0 && r[0] == (if inRun(s[i]) then c else s[i])
    ensures var r := RunsFrom(s, i, inRun, c);
      forall k :: 0 <= k < |r| - 1 ==> !(inRun(r[k]) && inRun(r[k + 1]))
    decreases |s| - i
  {
    if i < |s| {
      var j := if inRun(s[i]) then RunEnd(s, i, inRun) else i + 1;
      RunsCollapsed(s, j, inRun, c);
      var r := RunsFrom(s, i, inRun, c);
      var t := RunsFrom(s, j, inRun, c);
      assert r == r[..1] + t;
      forall k | 0 <= k < |r| - 1 ensures !(inRun(r[k]) && inRun(r[k + 1])) {
        if k > 0 {
          assert r[k] == t[k - 1] && r[k + 1] == t[k];
        }
      }
    }
  }

  /** Replacing runs only touches the class and `c`: deleting any class `q`
      that holds both from input and output gives the same string. */
  lemma {:induction false} RunsKeepOthers(s: string, i: nat, inRun: char -> bool, c: char, q: char -> bool)
    requires i <= |s|
    requires q(c) && forall x :: inRun(x) ==> q(x)
    ensures Drop(RunsFrom(s, i, inRun, c), q) == Drop(s[i..], q)
    decreases |s| - i
  {
    if i < |s| {
      if inRun(s[i]) {
        RunsKeepOthers(s, RunEnd(s, i, inRun), inRun, c, q);
        RunKeptStep(s, i, inRun, c, q);
      } else {
        RunsKeepOthers(s, i + 1, inRun, c, q);
        CharKeptStep(s, i, inRun, c, q);
      }
    }
  }

  /** One run replaced: its deletion-equivalence extends from the rest. */
  lemma RunKeptStep(s: string, i: nat, inRun: char -> bool, c: char, q: char -> bool)
    requires i < |s| && inRun(s[i])
    requires q(c) && forall x :: inRun(x) ==> q(x)
    requires Drop(RunsFrom(s, RunEnd(s, i, inRun), inRun, c), q) == Drop(s[RunEnd(s, i, inRun)..], q)
    ensures Drop(RunsFrom(s, i, inRun, c), q) == Drop(s[i..], q)
  {
    var j := RunEnd(s, i, inRun);
    DropRun(s[i..j], inRun, q, j - i);
    assert s[i..j][j - i..] == [];
    assert Drop([c], q) == [];
    assert RunsFrom(s, i, inRun, c) == [c] + RunsFrom(s, j, inRun, c);
    assert s[i..] == s[i..j] + s[j..];
    DropCompose([c], RunsFrom(s, j, inRun, c), s[i..j], s[j..], q);
  }

  /** One character copied: its deletion-equivalence extends from the rest. */
  lemma CharKeptStep(s: string, i: nat, inRun: char -> bool, c: char, q: char -> bool)
    requires i < |s| && !inRun(s[i])
    requires Drop(RunsFrom(s, i + 1, inRun, c), q) == Drop(s[i + 1..], q)
    ensures Drop(RunsFrom(s, i, inRun, c), q) == Drop(s[i..], q)
  {
    assert RunsFrom(s, i, inRun, c) == [s[i]] + RunsFrom(s, i + 1, inRun, c);
    assert s[i..] == [s[i]] + s[i + 1..];
    DropCompose([s[i]], RunsFrom(s, i + 1, inRun, c), [s[i]], s[i + 1..], q);
  }

  lemma ReplaceRunsKeepsOthers(s: string, inRun: char -> bool, c: char, q: char -> bool)
    requires q(c) && forall x :: inRun(x) ==> q(x)
    ensures Drop(ReplaceRuns(s, inRun, c), q) == Drop(s, q)
  {
    RunsKeepOthers(s, 0, inRun, c, q);
    assert s[0..] == s;
  }

  /** Dropping a class-`q` prefix of length `n` changes nothing. */
  lemma {:induction false} DropRun(s: string, inRun: char -> bool, q: char -> bool, n: nat)
    requires n <= |s|
    requires forall i :: 0 <= i < n ==> inRun(s[i])
    requires forall x :: inRun(x) ==> q(x)
    ensures Drop(s, q) == Drop(s[n..], q)
  {
    if n > 0 {
      assert s == [s[0]] + s[1..];
      DropConcat([s[0]], s[1..], q);
      assert s[1..][n - 1..] == s[n..];
      DropRun(s[1..], inRun, q, n - 1);
    }
  }

  /** Each character of the class replaced by `c`, the others kept. */
  function MapClass(s: string, inRun: char -> bool, c: char): (r: string)
    ensures |r| == |s|
  {
    seq(|s|, k requires 0 <= k < |s| => if inRun(s[k]) then c else s[k])
  }

  /** Where no two characters of the class are adjacent, every run has length
      one and replacing runs is a character-by-character map. */
  lemma {:induction false} RunsIsolated(s: string, i: nat, inRun: char -> bool, c: char)
    requires i <= |s|
    requires forall k :: 0 <= k < |s| - 1 ==> !(inRun(s[k]) && inRun(s[k + 1]))
    ensures RunsFrom(s, i, inRun, c) == MapClass(s, inRun, c)[i..]
    decreases |s| - i
  {
    if i < |s| {
      if inRun(s[i]) {
        assert i + 1 < |s| ==> !inRun(s[i + 1]);
        assert RunEnd(s, i, inRun) == i + 1;
      }
      RunsIsolated(s, i + 1, inRun, c);
      var m := MapClass(s, inRun, c);
      assert m[i..] == [m[i]] + m[i + 1..];
    }
  }

  /** Mapping a class onto a character every member already equals changes nothing. */
  lemma MapClassFixed(s: string, inRun: char -> bool, c: char)
    requires forall x :: inRun(x) ==> x == c
    ensures MapClass(s, inRun, c) == s
  {
    var m := MapClass(s, inRun, c);
    forall k | 0 <= k < |s| ensures m[k] == s[k] {
      assert m[k] == if inRun(s[k]) then c else s[k];
    }
  }

  /** A stretch without characters of the class is copied unchanged. */
  lemma {:induction false} RunsPlain(s: string, i: nat, j: nat, inRun: char -> bool, c: char)
    requires i <= j <= |s|
    requires forall k :: i <= k < j ==> !inRun(s[k])
    ensures RunsFrom(s, i, inRun, c) == s[i..j] + RunsFrom(s, j, inRun, c)
    decreases j - i
  {
    if i < j {
      assert RunsFrom(s, i, inRun, c) == [s[i]] + RunsFrom(s, i + 1, inRun, c);
      RunsPlain(s, i + 1, j, inRun, c);
      assert s[i..j] == [s[i]] + s[i + 1..j];
    }
  }

  /** A string free of the class is its own replacement. */
  lemma RunsAbsent(s: string, i: nat, inRun: char -> bool, c: char)
    requires i <= |s|
    requires forall k :: 0 <= k < |s| ==> !inRun(s[k])
    ensures RunsFrom(s, i, inRun, c) == s[i..]
  {
    RunsIsolated(s, i, inRun, c);
    assert MapClass(s, inRun, c) == s;
  }

  predicate IsDigit(c: char) { '0' <= c <= '9' }

  function DigitChar(d: nat): char
    requires d < 10
  {
    ('0' as int + d) as char
  }

  /** The value of a string of decimal digits. */
  function DecimalValue(s: string): nat
    requires forall i :: 0 <= i < |s| ==> IsDigit(s[i])
  {
    if s == [] then 0
    else
      assert IsDigit(s[|s| - 1]);
      DecimalValue(s[..|s| - 1]) * 10 + (s[|s| - 1] as int - '0' as int)
  }

  /** Number.prototype.toString for a non-negative integer below 10^21. */
  function NatString(n: nat): (r: string)
    ensures |r| > 0
  {
    if n < 10 then [DigitChar(n)] else NatString(n / 10) + [DigitChar(n % 10)]
  }

  /** `toString` gives the decimal digits of the number, without a leading
      zero, and they read back as the number. */
  lemma {:induction false} NatStringDigits(n: nat)
    ensures var r := NatString(n);
      (forall i :: 0 <= i < |r| ==> IsDigit(r[i]))
      && (r[0] != '0' || r == "0")
      && DecimalValue(r) == n
  {
    if n >= 10 {
      NatStringDigits(n / 10);
      var r := NatString(n);
      assert r[..|r| - 1] == NatString(n / 10);
    }
  }

  function TrimStart(s: string): (r: string)
    ensures |r| <= |s|
  {
    if s != [] && IsWhitespace(s[0]) then TrimStart(s[1..]) else s
  }

  function TrimEnd(s: string): (r: string)
    ensures |r| <= |s|
  {
    if s != [] && IsWhitespace(s[|s| - 1]) then TrimEnd(s[..|s| - 1]) else s
  }

  /** `TrimStart` removes a whitespace prefix and stops at the first other
      character. */
  lemma {:induction false} TrimStartShape(s: string)
    ensures var r := TrimStart(s);
      r == s[|s| - |r|..]
      && (forall i :: 0 <= i < |s| - |r| ==> IsWhitespace(s[i]))
      && (r == [] || !IsWhitespace(r[0]))
  {
    if s != [] && IsWhitespace(s[0]) {
      TrimStartShape(s[1..]);
    }
  }

  /** `TrimEnd` removes a whitespace suffix and stops at the last other
      character. */
  lemma {:induction false} TrimEndShape(s: string)
    ensures var r := TrimEnd(s);
      r == s[..|r|]
      && (forall i :: |r| <= i < |s| ==> IsWhitespace(s[i]))
      && (r == [] || !IsWhitespace(r[|r| - 1]))
  {
    if s != [] && IsWhitespace(s[|s| - 1]) {
      TrimEndShape(s[..|s| - 1]);
    }
  }

  /** `s` is `r` with only whitespace before position `i` and after `r`. */
  predicate Framed(s: string, r: string, i: int) {
    && 0 <= i <= |s| - |r|
    && s[i..i + |r|] == r
    && (forall j :: 0 <= j < i ==> IsWhitespace(s[j]))
    && (forall j :: i + |r| <= j < |s| ==> IsWhitespace(s[j]))
  }

  /** String.prototype.trim. */
  function Trim(s: string): string {
    TrimEnd(TrimStart(s))
  }

  /** The trimmed string neither starts nor ends with whitespace, and the
      input is it framed by whitespace. */
  lemma TrimShape(s: string)
    ensures var r := Trim(s);
      (r == [] || (!IsWhitespace(r[0]) && !IsWhitespace(r[|r| - 1])))
      && Framed(s, r, |s| - |TrimStart(s)|)
  {
    var t := TrimStart(s);
    var r := TrimEnd(t);
    TrimStartShape(s);
    TrimEndShape(t);
    var i := |s| - |t|;
    assert s[i..i + |r|] == r;
    if r != [] {
      assert r[0] == t[0];
    }
  }

  /** Array.prototype.join with a separator. */
  function JoinWith(parts: seq<string>, sep: string): string {
    if parts == [] then ""
    else if |parts| == 1 then parts[0]
    else parts[0] + sep + JoinWith(parts[1..], sep)
  }
}

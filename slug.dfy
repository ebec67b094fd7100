/**
  Slug normalisation of the relative directory part of an object key
  (`normalize`, index.js:30-43): a fixed pipeline of global replaces applied
  after lowercasing and NFKD decomposition.
 */
module Slug {
  import opened Text

  /** Combining diacritical marks, U+0300 to U+036F. */
  predicate IsCombining(c: char) { '\U{300}' <= c <= '\U{36F}' }

  predicate IsBang(c: char) { c == '?' || c == '!' }

  predicate IsQuote(c: char) { c == '\'' || c == '"' }

  predicate IsDash(c: char) { c == '-' }

  predicate IsAmpersand(c: char) { c == '&' }

  predicate IsDot(c: char) { c == '.' }

  /** The classes the pipeline has removed after each of its deleting steps;
      the last one holds the characters no slug contains. */
  predicate GoneAfterBangs(c: char) { IsCombining(c) || IsBang(c) }

  predicate GoneAfterSpaces(c: char) { GoneAfterBangs(c) || IsWhitespace(c) }

  predicate GoneAfterQuotes(c: char) { GoneAfterSpaces(c) || IsQuote(c) }

  predicate Banned(c: char) { GoneAfterQuotes(c) || IsDot(c) }

  /** Every character some step of the pipeline deletes, rewrites or inserts. */
  predicate Special(c: char) {
    Banned(c) || IsDash(c) || IsAmpersand(c) || c == '+'
  }

  /** Where a match of `/-+&+-+/` starting at position `i` ends (each greedy
      run is maximal), or `i` itself when nothing matches there. */
  function MatchEnd(s: string, i: nat): (e: nat)
    requires i <= |s|
    ensures i <= e <= |s|
  {
    var d := RunEnd(s, i, IsDash);
    if d == i then i
    else
      var a := RunEnd(s, d, IsAmpersand);
      if a == d then i
      else
        var e := RunEnd(s, a, IsDash);
        if e == a then i else e
  }

  /** A match starts with a dash, holds an ampersand, and is made of dashes
      and ampersands only. */
  lemma MatchShape(s: string, i: nat)
    requires i <= |s|
    ensures MatchEnd(s, i) > i ==> IsDash(s[i]) && IsAmpersand(s[RunEnd(s, i, IsDash)])
    ensures MatchEnd(s, i) > i ==> i < RunEnd(s, i, IsDash) < MatchEnd(s, i)
    ensures forall k :: i <= k < MatchEnd(s, i) ==> IsDash(s[k]) || IsAmpersand(s[k])
  {
  }

  /** `.replace(/-+&+-+/g, '+')`, scanning from position `i`: each match,
      leftmost first, becomes `+`. */
  function AmpersandsFrom(s: string, i: nat): (r: string)
    requires i <= |s|
    ensures |r| <= |s| - i
    decreases |s| - i
  {
    if i == |s| then []
    else
      var e := MatchEnd(s, i);
      if e > i then "+" + AmpersandsFrom(s, e) else [s[i]] + AmpersandsFrom(s, i + 1)
  }

  function ReplaceAmpersands(s: string): string {
    AmpersandsFrom(s, 0)
  }

  /** Without an ampersand nothing matches. */
  lemma {:induction false} AmpersandsIdentity(s: string, i: nat)
    requires i <= |s|
    requires Free(s, IsAmpersand)
    ensures AmpersandsFrom(s, i) == s[i..]
    decreases |s| - i
  {
    if i < |s| {
      MatchShape(s, i);
      AmpersandsIdentity(s, i + 1);
      assert s[i..] == [s[i]] + s[i + 1..];
    }
  }

  /** A character other than a dash cannot start a match and is copied. */
  lemma AmpersandsNoDash(s: string, i: nat)
    requires i < |s| && !IsDash(s[i])
    ensures AmpersandsFrom(s, i) == [s[i]] + AmpersandsFrom(s, i + 1)
  {
    assert RunEnd(s, i, IsDash) == i;
  }

  /** A stretch without dashes cannot start a match and is copied. */
  lemma {:induction false} AmpersandsPlain(s: string, i: nat, j: nat)
    requires i <= j <= |s|
    requires Free(s[i..j], IsDash)
    ensures AmpersandsFrom(s, i) == s[i..j] + AmpersandsFrom(s, j)
    decreases j - i
  {
    if i < j {
      assert s[i..j][0] == s[i];
      assert s[i + 1..j] == s[i..j][1..];
      AmpersandsNoDash(s, i);
      AmpersandsPlain(s, i + 1, j);
      var x, y, z := [s[i]], s[i + 1..j], AmpersandsFrom(s, j);
      assert (x + y) + z == x + (y + z);
      assert s[i..j] == [s[i]] + s[i + 1..j];
    }
  }

  lemma {:induction false} AmpersandsKeepFree(s: string, i: nat, p: char -> bool)
    requires i <= |s|
    requires Free(s, p) && !p('+')
    ensures Free(AmpersandsFrom(s, i), p)
    decreases |s| - i
  {
    if i < |s| {
      var e := MatchEnd(s, i);
      AmpersandsKeepFree(s, if e > i then e else i + 1, p);
    }
  }

  predicate DashOrAmpersand(c: char) { IsDash(c) || IsAmpersand(c) }

  /** A matched stretch holds nothing but dashes and ampersands. */
  lemma MatchDropped(s: string, i: nat, e: nat, q: char -> bool)
    requires i < e <= |s|
    requires forall k :: i <= k < e ==> IsDash(s[k]) || IsAmpersand(s[k])
    requires forall x :: DashOrAmpersand(x) ==> q(x)
    ensures Drop(s[i..e], q) == []
  {
    var m := s[i..e];
    assert forall k :: 0 <= k < |m| ==> DashOrAmpersand(m[k]);
    DropRun(m, DashOrAmpersand, q, |m|);
    assert m[|m|..] == [];
  }

  /** The ampersand rule only rewrites dashes, ampersands and pluses: deleting
      any class that holds those from input and output gives the same string. */
  lemma {:induction false} AmpersandsKeepOthers(s: string, i: nat, q: char -> bool)
    requires i <= |s|
    requires q('+') && forall x :: DashOrAmpersand(x) ==> q(x)
    ensures Drop(AmpersandsFrom(s, i), q) == Drop(s[i..], q)
    decreases |s| - i
  {
    if i < |s| {
      if MatchEnd(s, i) > i {
        AmpersandsKeepOthers(s, MatchEnd(s, i), q);
        MatchKeptStep(s, i, q);
      } else {
        AmpersandsKeepOthers(s, i + 1, q);
        PlainKeptStep(s, i, q);
      }
    }
  }

  /** One match replaced by `+`: its deletion-equivalence extends from the rest. */
  lemma MatchKeptStep(s: string, i: nat, q: char -> bool)
    requires i < |s| && MatchEnd(s, i) > i
    requires q('+') && forall x :: DashOrAmpersand(x) ==> q(x)
    requires Drop(AmpersandsFrom(s, MatchEnd(s, i)), q) == Drop(s[MatchEnd(s, i)..], q)
    ensures Drop(AmpersandsFrom(s, i), q) == Drop(s[i..], q)
  {
    var e := MatchEnd(s, i);
    MatchShape(s, i);
    MatchDropped(s, i, e, q);
    assert Drop("+", q) == [];
    assert AmpersandsFrom(s, i) == "+" + AmpersandsFrom(s, e);
    assert s[i..] == s[i..e] + s[e..];
    DropCompose("+", AmpersandsFrom(s, e), s[i..e], s[e..], q);
  }

  /** One character copied: its deletion-equivalence extends from the rest. */
  lemma PlainKeptStep(s: string, i: nat, q: char -> bool)
    requires i < |s| && MatchEnd(s, i) == i
    requires Drop(AmpersandsFrom(s, i + 1), q) == Drop(s[i + 1..], q)
    ensures Drop(AmpersandsFrom(s, i), q) == Drop(s[i..], q)
  {
    assert AmpersandsFrom(s, i) == [s[i]] + AmpersandsFrom(s, i + 1);
    assert s[i..] == [s[i]] + s[i + 1..];
    DropCompose([s[i]], AmpersandsFrom(s, i + 1), [s[i]], s[i + 1..], q);
  }

  /** `normalize`: lowercase, NFKD, then the seven replaces in source order. */
  function Normalize(h: Host, s: string): string {
    var t0 := h.nfkd(h.lower(s));
    var t1 := Drop(t0, IsCombining);
    var t2 := Drop(t1, IsBang);
    var t3 := ReplaceRuns(t2, IsWhitespace, '-');
    var t4 := ReplaceAmpersands(t3);
    var t5 := Drop(t4, IsQuote);
    var t6 := ReplaceRuns(t5, IsDash, '-');
    Drop(t6, IsDot)
  }

  /** Deleting class `gone` from a string free of `p` leaves it free of both. */
  lemma DropKeepsFree(s: string, gone: char -> bool, p: char -> bool, q: char -> bool)
    requires Free(s, p)
    requires forall x :: q(x) ==> p(x) || gone(x)
    ensures Free(Drop(s, gone), q)
  {
    var r := Drop(s, gone);
    DropMembers(s, gone);
    forall i | 0 <= i < |r| ensures !q(r[i]) {
      var j :| 0 <= j < |s| && s[j] == r[i];
    }
  }

  /** Replacing the runs of `inRun` by a `c` outside `q` keeps a string free of
      `p` and removes `inRun`. */
  lemma RunsKeepFree(s: string, inRun: char -> bool, c: char, p: char -> bool, q: char -> bool)
    requires Free(s, p) && !q(c)
    requires forall x :: q(x) ==> p(x) || inRun(x)
    ensures Free(ReplaceRuns(s, inRun, c), q)
  {
    var r := ReplaceRuns(s, inRun, c);
    RunsChars(s, 0, inRun, c);
    forall i | 0 <= i < |r| ensures !q(r[i]) {
      if r[i] != c { var j :| 0 <= j < |s| && s[j] == r[i]; }
    }
  }

  /** The first three steps remove combining marks, `?`, `!` and whitespace. */
  lemma CleanThroughSpaces(h: Host, s: string)
    ensures Free(ReplaceRuns(Drop(Drop(h.nfkd(h.lower(s)), IsCombining), IsBang), IsWhitespace, '-'), GoneAfterSpaces)
  {
    var t0 := h.nfkd(h.lower(s));
    var t1 := Drop(t0, IsCombining);
    var t2 := Drop(t1, IsBang);
    DropKeepsFree(t0, IsCombining, c => false, IsCombining);
    DropKeepsFree(t1, IsBang, IsCombining, GoneAfterBangs);
    RunsKeepFree(t2, IsWhitespace, '-', GoneAfterBangs, GoneAfterSpaces);
  }

  /** The remaining steps keep those out and remove quotes and periods. */
  lemma CleanAfterSpaces(t3: string)
    requires Free(t3, GoneAfterSpaces)
    ensures Free(Drop(ReplaceRuns(Drop(ReplaceAmpersands(t3), IsQuote), IsDash, '-'), IsDot), Banned)
  {
    var t4 := ReplaceAmpersands(t3);
    var t5 := Drop(t4, IsQuote);
    var t6 := ReplaceRuns(t5, IsDash, '-');
    AmpersandsKeepFree(t3, 0, GoneAfterSpaces);
    DropKeepsFree(t4, IsQuote, GoneAfterSpaces, GoneAfterQuotes);
    RunsKeepFree(t5, IsDash, '-', GoneAfterQuotes, GoneAfterQuotes);
    DropKeepsFree(t6, IsDot, GoneAfterQuotes, Banned);
  }

  /** A slug never holds a combining mark, `?`, `!`, whitespace, a straight
      quote or a period, whatever the host's lowercase and NFKD return. */
  lemma NormalizeIsClean(h: Host, s: string)
    ensures Free(Normalize(h, s), Banned)
  {
    CleanThroughSpaces(h, s);
    CleanAfterSpaces(ReplaceRuns(Drop(Drop(h.nfkd(h.lower(s)), IsCombining), IsBang), IsWhitespace, '-'));
  }

  /** Normalisation only touches the characters its replaces name: every other
      character of the lowercased, decomposed input survives, in order. */
  lemma NormalizeKeepsText(h: Host, s: string)
    ensures Drop(Normalize(h, s), Special) == Drop(h.nfkd(h.lower(s)), Special)
  {
    var t0 := h.nfkd(h.lower(s));
    var t1 := Drop(t0, IsCombining);
    var t2 := Drop(t1, IsBang);
    var t3 := ReplaceRuns(t2, IsWhitespace, '-');
    var t4 := ReplaceAmpersands(t3);
    var t5 := Drop(t4, IsQuote);
    var t6 := ReplaceRuns(t5, IsDash, '-');
    assert Drop(t1, Special) == Drop(t0, Special) by { DropAbsorbed(t0, IsCombining, Special); }
    assert Drop(t2, Special) == Drop(t1, Special) by { DropAbsorbed(t1, IsBang, Special); }
    assert Drop(t3, Special) == Drop(t2, Special) by { ReplaceRunsKeepsOthers(t2, IsWhitespace, '-', Special); }
    assert Drop(t4, Special) == Drop(t3, Special) by { AmpersandsKeepOthers(t3, 0, Special); assert t3[0..] == t3; }
    assert Drop(t5, Special) == Drop(t4, Special) by { DropAbsorbed(t4, IsQuote, Special); }
    assert Drop(t6, Special) == Drop(t5, Special) by { ReplaceRunsKeepsOthers(t5, IsDash, '-', Special); }
    DropAbsorbed(t6, IsDot, Special);
  }

  /** For ASCII input the slug has no upper-case letter. */
  lemma NormalizeAsciiIsLowercase(h: Host, s: string)
    requires AsciiFaithful(h)
    requires IsAscii(s)
    ensures Free(Normalize(h, s), IsUpper)
  {
    var t0 := h.nfkd(h.lower(s));
    assert h.lower(s) == AsciiLower(s);
    assert t0 == AsciiLower(s);
    var t1 := Drop(t0, IsCombining);
    var t2 := Drop(t1, IsBang);
    var t3 := ReplaceRuns(t2, IsWhitespace, '-');
    var t4 := ReplaceAmpersands(t3);
    var t5 := Drop(t4, IsQuote);
    var t6 := ReplaceRuns(t5, IsDash, '-');
    assert Free(t1, IsUpper) by { DropKeepsFree(t0, IsCombining, IsUpper, IsUpper); }
    assert Free(t2, IsUpper) by { DropKeepsFree(t1, IsBang, IsUpper, IsUpper); }
    assert Free(t3, IsUpper) by { RunsKeepFree(t2, IsWhitespace, '-', IsUpper, IsUpper); }
    assert Free(t4, IsUpper) by { AmpersandsKeepFree(t3, 0, IsUpper); }
    assert Free(t5, IsUpper) by { DropKeepsFree(t4, IsQuote, IsUpper, IsUpper); }
    assert Free(t6, IsUpper) by { RunsKeepFree(t5, IsDash, '-', IsUpper, IsUpper); }
    DropKeepsFree(t6, IsDot, IsUpper, IsUpper);
  }

  // Worked examples. Each string is passed as a parameter fixed by a
  // requires clause, and each lemma covers one step of the pipeline; the
  // host's lowercase and NFKD are fixed on the one string each is applied to.

  /** Characters that no step before the dash collapse touches. */
  predicate Plain(c: char) {
    'a' <= c <= 'z' || '0' <= c <= '9' || c == '/' || c == '-' || c == '.'
  }

  lemma PlainKeepsClass(s: string, p: char -> bool)
    requires forall k :: 0 <= k < |s| ==> Plain(s[k])
    requires forall c :: Plain(c) ==> !p(c)
    ensures Drop(s, p) == s
  {
    assert Free(s, p);
    DropAbsent(s, p);
  }

  /** On plain text the steps up to the whitespace rule change nothing. */
  lemma PlainFront(s: string)
    requires forall k :: 0 <= k < |s| ==> Plain(s[k])
    ensures ReplaceRuns(Drop(Drop(s, IsCombining), IsBang), IsWhitespace, '-') == s
  {
    PlainKeepsClass(s, IsCombining);
    PlainKeepsClass(s, IsBang);
    PlainNoRuns(s, IsWhitespace);
  }

  lemma PlainNoRuns(s: string, p: char -> bool)
    requires forall k :: 0 <= k < |s| ==> Plain(s[k])
    requires forall c :: Plain(c) ==> !p(c)
    ensures ReplaceRuns(s, p, '-') == s
  {
    RunsAbsent(s, 0, p, '-');
    assert s[0..] == s;
  }

  /** On plain text the ampersand and quote rules change nothing. */
  lemma PlainMiddle(s: string)
    requires forall k :: 0 <= k < |s| ==> Plain(s[k])
    ensures Drop(ReplaceAmpersands(s), IsQuote) == s
  {
    AmpersandsIdentity(s, 0);
    assert s[0..] == s;
    PlainKeepsClass(s, IsQuote);
  }

  /** Without dashes and dots the last two rules change nothing either. */
  lemma PlainBack(s: string)
    requires forall k :: 0 <= k < |s| ==> Plain(s[k]) && s[k] != '-' && s[k] != '.'
    ensures Drop(ReplaceRuns(s, IsDash, '-'), IsDot) == s
  {
    RunsAbsent(s, 0, IsDash, '-');
    assert s[0..] == s;
    DropAbsent(s, IsDot);
  }

  lemma SpacesIsolated(s: string, t: string)
    requires forall k :: 0 <= k < |s| - 1 ==> !(IsWhitespace(s[k]) && IsWhitespace(s[k + 1]))
    requires |t| == |s|
    requires forall k :: 0 <= k < |s| ==> t[k] == if IsWhitespace(s[k]) then '-' else s[k]
    ensures ReplaceRuns(s, IsWhitespace, '-') == t
  {
    RunsIsolated(s, 0, IsWhitespace, '-');
    var m := MapClass(s, IsWhitespace, '-');
    forall k | 0 <= k < |t| ensures m[k] == t[k] {
      assert m[k] == if IsWhitespace(s[k]) then '-' else s[k];
    }
  }

  lemma RockNoMarks(s: string)
    requires s == "rock - & - roll."
    ensures Drop(s, IsCombining) == s
  {
    DropAbsent(s, IsCombining);
  }

  lemma RockNoBangs(s: string)
    requires s == "rock - & - roll."
    ensures Drop(s, IsBang) == s
  {
    DropAbsent(s, IsBang);
  }

  lemma RockMarks(s: string)
    requires s == "rock - & - roll."
    ensures Drop(Drop(s, IsCombining), IsBang) == s
  {
    RockNoMarks(s);
    RockNoBangs(s);
  }

  /** The whitespace step of both worked examples: each has single spaces
      only. */
  lemma ExampleSpaces(s: string, t: string)
    requires || (s == "rock - & - roll." && t == "rock---&---roll.")
             || (s == "tom's cafe" && t == "tom's-cafe")
    ensures ReplaceRuns(s, IsWhitespace, '-') == t
  {
    SpacesIsolated(s, t);
  }

  lemma RockMatch(s: string)
    requires s == "rock---&---roll."
    ensures AmpersandsFrom(s, 4) == "+" + AmpersandsFrom(s, 11)
  {
    assert s[4] == '-' && s[5] == '-' && s[6] == '-' && s[7] == '&';
    assert s[8] == '-' && s[9] == '-' && s[10] == '-' && s[11] == 'r';
    assert RunEnd(s, 4, IsDash) == 7;
    assert RunEnd(s, 7, IsAmpersand) == 8;
    assert RunEnd(s, 8, IsDash) == 11;
    assert MatchEnd(s, 4) == 11;
  }

  lemma RockPieces(s: string)
    requires s == "rock---&---roll."
    ensures ReplaceAmpersands(s) == s[0..4] + ("+" + (s[11..16] + AmpersandsFrom(s, 16)))
  {
    RockHead(s);
    RockMatch(s);
    RockRest(s);
  }

  lemma RockHead(s: string)
    requires s == "rock---&---roll."
    ensures AmpersandsFrom(s, 0) == s[0..4] + AmpersandsFrom(s, 4)
  {
    AmpersandsPlain(s, 0, 4);
  }

  lemma RockRest(s: string)
    requires s == "rock---&---roll."
    ensures AmpersandsFrom(s, 11) == s[11..16] + AmpersandsFrom(s, 16)
  {
    AmpersandsPlain(s, 11, 16);
  }

  lemma RockAmpersand(s: string, t: string)
    requires s == "rock---&---roll." && t == "rock+roll."
    ensures ReplaceAmpersands(s) == t
  {
    RockPieces(s);
    assert AmpersandsFrom(s, 16) == [];
    assert s[0..4] == "rock" && s[11..16] == "roll.";
  }

  /** The last period of a string goes, the rest has none. */
  lemma DropLastDot(s: string, t: string)
    requires |s| == |t| + 1 && s[..|t|] == t && s[|t|] == '.'
    requires Free(t, IsDot)
    ensures Drop(s, IsDot) == t
  {
    assert s == t + [s[|t|]];
    DropConcat(t, [s[|t|]], IsDot);
    DropAbsent(t, IsDot);
  }

  lemma RockTail(s: string, t: string)
    requires s == "rock+roll." && t == "rock+roll"
    ensures Drop(ReplaceRuns(Drop(s, IsQuote), IsDash, '-'), IsDot) == t
  {
    DropAbsent(s, IsQuote);
    RunsAbsent(s, 0, IsDash, '-');
    assert s[0..] == s;
    DropLastDot(s, t);
  }

  /** The ampersand rule: spaced dashes around an ampersand become one plus. */
  lemma RockAndRollExample(h: Host, s: string)
    requires s == "Rock - & - Roll."
    requires h.lower(s) == "rock - & - roll."
    requires h.nfkd("rock - & - roll.") == "rock - & - roll."
    ensures Normalize(h, s) == "rock+roll"
  {
    RockMarks("rock - & - roll.");
    ExampleSpaces("rock - & - roll.", "rock---&---roll.");
    RockAmpersand("rock---&---roll.", "rock+roll.");
    RockTail("rock+roll.", "rock+roll");
  }

  /** Deleting one character at position `i` of a string whose other characters
      are outside the class. */
  lemma DropOne(s: string, i: nat, gone: char -> bool)
    requires i < |s| && gone(s[i])
    requires Free(s[..i], gone) && Free(s[i + 1..], gone)
    ensures Drop(s, gone) == s[..i] + s[i + 1..]
  {
    var a, b := s[..i], s[i + 1..];
    assert s == a + ([s[i]] + b);
    DropConcat([s[i]], b, gone);
    DropAbsent(b, gone);
    assert Drop([s[i]] + b, gone) == b;
    DropConcat(a, [s[i]] + b, gone);
    DropAbsent(a, gone);
  }

  lemma CafeMark(s: string, t: string)
    requires s == "tom's cafe\U{301}!" && t == "tom's cafe!"
    ensures Drop(s, IsCombining) == t
  {
    DropOne(s, 10, IsCombining);
    assert s[..10] + s[11..] == t;
  }

  lemma CafeBang(s: string, t: string)
    requires s == "tom's cafe!" && t == "tom's cafe"
    ensures Drop(s, IsBang) == t
  {
    DropOne(s, 10, IsBang);
    assert s[..10] + s[11..] == t;
  }

  lemma CafeQuote(s: string, t: string)
    requires s == "tom's-cafe" && t == "toms-cafe"
    ensures Drop(ReplaceAmpersands(s), IsQuote) == t
  {
    CafeNoAmpersand(s);
    CafeApostrophe(s, t);
  }

  lemma CafeNoAmpersand(s: string)
    requires s == "tom's-cafe"
    ensures ReplaceAmpersands(s) == s
  {
    AmpersandsIdentity(s, 0);
    assert s[0..] == s;
  }

  lemma CafeApostrophe(s: string, t: string)
    requires s == "tom's-cafe" && t == "toms-cafe"
    ensures Drop(s, IsQuote) == t
  {
    DropOne(s, 3, IsQuote);
    assert s[..3] + s[4..] == t;
  }

  lemma CafeTail(t: string)
    requires t == "toms-cafe"
    ensures Drop(ReplaceRuns(t, IsDash, '-'), IsDot) == t
  {
    assert forall k :: 0 <= k < |t| - 1 ==> !(IsDash(t[k]) && IsDash(t[k + 1]));
    RunsIsolated(t, 0, IsDash, '-');
    MapClassFixed(t, IsDash, '-');
    assert t[0..] == t;
    DropAbsent(t, IsDot);
  }

  /** Apostrophe and exclamation mark go, the accent is stripped after NFKD
      splits it off, and the space becomes a dash. */
  lemma CafeExample(h: Host, s: string)
    requires s == "Tom's Caf\U{E9}!"
    requires h.lower(s) == "tom's caf\U{E9}!"
    requires h.nfkd("tom's caf\U{E9}!") == "tom's cafe\U{301}!"
    ensures Normalize(h, s) == "toms-cafe"
  {
    var t0 := h.nfkd(h.lower(s));
    CafeMark(t0, "tom's cafe!");
    CafeBang("tom's cafe!", "tom's cafe");
    ExampleSpaces("tom's cafe", "tom's-cafe");
    CafeQuote("tom's-cafe", "toms-cafe");
    CafeTail("toms-cafe");
  }

  /** Up to the dash rule, "a-.-b" passes through unchanged. */
  lemma DotsHead(s: string)
    requires s == "a-.-b"
    ensures Drop(ReplaceAmpersands(ReplaceRuns(Drop(Drop(s, IsCombining), IsBang), IsWhitespace, '-')), IsQuote) == s
  {
    PlainFront(s);
    PlainMiddle(s);
  }

  lemma DotsTail(s: string, t: string)
    requires s == "a-.-b" && t == "a--b"
    ensures Drop(ReplaceRuns(s, IsDash, '-'), IsDot) == t
  {
    assert forall k :: 0 <= k < |s| - 1 ==> !(IsDash(s[k]) && IsDash(s[k + 1]));
    RunsIsolated(s, 0, IsDash, '-');
    MapClassFixed(s, IsDash, '-');
    assert s[0..] == s;
    DropOne(s, 2, IsDot);
    assert s[..2] + s[3..] == t;
  }

  lemma DotBetweenDashes(h: Host, s: string)
    requires s == "a-.-b" && h.lower(s) == s && h.nfkd(s) == s
    ensures Normalize(h, s) == "a--b"
  {
    DotsHead(s);
    DotsTail(s, "a--b");
  }

  lemma DoubleTail(s: string, t: string)
    requires s == "a--b" && t == "a-b"
    ensures Drop(ReplaceRuns(s, IsDash, '-'), IsDot) == t
  {
    assert RunEnd(s, 3, IsDash) == 3;
    assert RunEnd(s, 2, IsDash) == 3;
    assert RunEnd(s, 1, IsDash) == 3;
    assert RunsFrom(s, 4, IsDash, '-') == [];
    assert RunsFrom(s, 3, IsDash, '-') == [s[3]] + RunsFrom(s, 4, IsDash, '-');
    assert RunsFrom(s, 1, IsDash, '-') == ['-'] + RunsFrom(s, 3, IsDash, '-');
    assert ReplaceRuns(s, IsDash, '-') == [s[0]] + RunsFrom(s, 1, IsDash, '-');
    assert [s[0]] + (['-'] + ([s[3]] + [])) == t;
    assert ReplaceRuns(s, IsDash, '-') == t;
    DropAbsent(t, IsDot);
  }

  lemma DoubleDash(h: Host, s: string)
    requires s == "a--b" && h.lower(s) == s && h.nfkd(s) == s
    ensures Normalize(h, s) == "a-b"
  {
    PlainFront(s);
    PlainMiddle(s);
    DoubleTail(s, "a-b");
  }

  /** Normalisation is not idempotent: a period between two dashes leaves a
      double dash that only a second pass collapses. */
  lemma NotIdempotent(h: Host, s: string)
    requires s == "a-.-b" && h.lower(s) == s && h.nfkd(s) == s
    requires h.lower("a--b") == "a--b" && h.nfkd("a--b") == "a--b"
    ensures Normalize(h, Normalize(h, s)) != Normalize(h, s)
  {
    DotBetweenDashes(h, s);
    DoubleDash(h, "a--b");
  }
}

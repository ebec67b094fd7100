/**
  Object-key derivation of `resizeAndUpload` (index.js:151-176) and the
  secret segment of `getSecret` / `hash` (index.js:213-234).
 */
module Keys {
  import opened Text
  import opened Slug
  import opened Paths

  /** A configured directory: `basePath`, `baseKey`, `secret`, `salt`. An
      absent salt is the empty string, which JavaScript treats as false. */
  datatype Rule = Rule(basePath: string, baseKey: string, secret: bool, salt: string)

  /** One entry of a configured size, as the YAML loader yields it. */
  datatype Dim = Num(n: nat) | Str(s: string)

  /** `toString` of an entry. */
  function DimString(d: Dim): string {
    match d
    case Num(n) => NatString(n)
    case Str(s) => s
  }

  /** `size.map(i => i.toString().trim())`. */
  function DimStrings(size: seq<Dim>): (r: seq<string>)
    ensures |r| == |size|
  {
    if size == [] then [] else [Trim(DimString(size[0]))] + DimStrings(size[1..])
  }

  /** The size segment: the trimmed entries joined by `x`. */
  function SizeId(size: seq<Dim>): string {
    JoinWith(DimStrings(size), "x")
  }

  /** A string of digits is its own trim. */
  lemma TrimDigits(s: string)
    requires s != [] && forall i :: 0 <= i < |s| ==> IsDigit(s[i])
    ensures Trim(s) == s
  {
    assert !IsWhitespace(s[0]) && !IsWhitespace(s[|s| - 1]);
    assert TrimStart(s) == s;
    assert TrimEnd(s) == s;
  }

  lemma DimStringsPair(a: Dim, b: Dim)
    ensures DimStrings([a, b]) == [Trim(DimString(a)), Trim(DimString(b))]
  {
    var size := [a, b];
    assert size[1..] == [b] && size[1..][1..] == [];
    assert DimStrings(size[1..]) == [Trim(DimString(b))];
  }

  lemma JoinPair(x: string, y: string, sep: string)
    ensures JoinWith([x, y], sep) == x + sep + y
  {
    assert [x, y][1..] == [y];
  }

  /** A numeric width and height give `W + "x" + H`. */
  lemma SizeIdPair(w: nat, h: nat)
    ensures SizeId([Num(w), Num(h)]) == NatString(w) + "x" + NatString(h)
  {
    NatStringDigits(w);
    NatStringDigits(h);
    TrimDigits(NatString(w));
    TrimDigits(NatString(h));
    DimStringsPair(Num(w), Num(h));
    JoinPair(NatString(w), NatString(h), "x");
  }

  /** The first `x` of `u + "x" + v` is the marker when `u` has none. */
  lemma MarkerPosition(u: string, v: string)
    requires 'x' !in u
    ensures IndexOf(u + "x" + v, "x") == |u|
  {
    var s := u + "x" + v;
    assert s[|u|..|u| + 1] == "x";
    assert OccursAt(s, "x", |u|);
    var r := IndexOf(s, "x");
    assert r <= |u|;
    assert s[r..r + 1] == "x";
    assert s[r] == 'x';
    assert forall k :: 0 <= k < |u| ==> s[k] == u[k];
  }

  lemma SplitAtMarker(u: string, v: string, u': string, v': string)
    requires 'x' !in u && 'x' !in u'
    requires u + "x" + v == u' + "x" + v'
    ensures u == u' && v == v'
  {
    var s := u + "x" + v;
    MarkerPosition(u, v);
    MarkerPosition(u', v');
    assert u == s[..|u|] && u' == s[..|u'|];
    assert v == s[|u| + 1..] && v' == s[|u'| + 1..];
  }

  lemma DigitsHaveNoMarker(n: nat)
    ensures 'x' !in NatString(n)
  {
    var s := NatString(n);
    NatStringDigits(n);
    forall i | 0 <= i < |s| ensures s[i] != 'x' {
      assert IsDigit(s[i]);
    }
  }

  /** Distinct numeric sizes get distinct size segments, so their uploads never
      share a key. */
  lemma SizeIdDecodes(w: nat, h: nat, w': nat, h': nat)
    requires SizeId([Num(w), Num(h)]) == SizeId([Num(w'), Num(h')])
    ensures w == w' && h == h'
  {
    SizeIdPair(w, h);
    SizeIdPair(w', h');
    DigitsHaveNoMarker(w);
    DigitsHaveNoMarker(w');
    SplitAtMarker(NatString(w), NatString(h), NatString(w'), NatString(h'));
    NatStringDigits(w);
    NatStringDigits(h);
    NatStringDigits(w');
    NatStringDigits(h');
  }

  /** The string `hash` feeds to SHA-1: the salt is appended when non-empty. */
  function HashInput(str: string, salt: string): string {
    if salt != "" then str + salt else str
  }

  /** `hash`, with its in-place `str += salt`. */
  method Hash(h: Host, str0: string, salt: string) returns (digest: string)
    ensures digest == h.sha1Hex(HashInput(str0, salt))
  {
    var str := str0;
    if salt != "" {
      str := str + salt;
    }
    digest := h.sha1Hex(str);
  }

  /** For one path, a different salt means a different hashed string. */
  lemma HashInputSeparatesSalts(str: string, salt: string, salt': string)
    requires HashInput(str, salt) == HashInput(str, salt')
    ensures salt == salt'
  {
    var s := HashInput(str, salt);
    assert s[..|str|] == str;
    if salt != "" && salt' != "" {
      assert salt == s[|str|..] == salt';
    }
  }

  /** `getSecret`: the salted hash of the argument path when the rule is
      secret, `false` (None) otherwise. */
  function GetSecret(h: Host, filename: string, rule: Rule): Option<string> {
    if rule.secret then Some(h.sha1Hex(HashInput(filename, rule.salt))) else None
  }

  /** `params.secret`, set only when `getSecret` returned a truthy value. */
  function SecretParam(h: Host, p: string, rule: Rule): Option<string> {
    match GetSecret(h, p, rule)
    case Some(x) => if x != "" then Some(x) else None
    case None => None
  }

  /** With a real SHA-1 the secret is present exactly for secret rules, and it
      is the hash of the path with the salt appended when there is one. */
  lemma SecretIff(h: Host, p: string, rule: Rule)
    requires DigestShaped(h)
    ensures SecretParam(h, p, rule).Some? <==> rule.secret
    ensures rule.secret && rule.salt != "" ==> SecretParam(h, p, rule) == Some(h.sha1Hex(p + rule.salt))
    ensures rule.secret && rule.salt == "" ==> SecretParam(h, p, rule) == Some(h.sha1Hex(p))
  {
    assert |h.sha1Hex(HashInput(p, rule.salt))| == 40;
  }

  /** `path.join(baseKey, normalize(dir.replace(basePath, '')))`. */
  function JoinedKey(h: Host, rule: Rule, dir: string): string {
    Join(rule.baseKey, Normalize(h, RemoveFirst(dir, rule.basePath)))
  }

  /** One leading `/` stripped, then a trailing `/` ensured (index.js:157-163). */
  function SlashFramed(j: string): string {
    var k := if |j| > 0 && j[0] == '/' then j[1..] else j;
    if |k| > 0 && k[|k| - 1] == '/' then k else k + "/"
  }

  /** The directory part of the base key (index.js:152-163). */
  function DirKey(h: Host, rule: Rule, dir: string): string {
    SlashFramed(JoinedKey(h, rule, dir))
  }

  /** The base key with the optional `<secret>/` segment (index.js:165-167). */
  function BaseKey(h: Host, rule: Rule, secret: Option<string>, filename: string): string {
    var d := DirKey(h, rule, Dirname(filename));
    if secret.Some? && secret.value != "" then d + secret.value + "/" else d
  }

  /** The two slash fix-ups applied in place to `s3BaseKey`. The result ends
      with `/`, and it starts with `/` only when the input was `//` or
      began with `///`, or was the bare `/` that becomes `/` again. */
  method FrameSlashes(joined: string) returns (s3BaseKey: string)
    ensures s3BaseKey == SlashFramed(joined)
    ensures |s3BaseKey| > 0 && s3BaseKey[|s3BaseKey| - 1] == '/'
  {
    s3BaseKey := joined;
    if |s3BaseKey| > 0 && s3BaseKey[0] == '/' {
      s3BaseKey := s3BaseKey[1..];
    }
    if !(|s3BaseKey| > 0 && s3BaseKey[|s3BaseKey| - 1] == '/') {
      s3BaseKey := s3BaseKey + "/";
    }
  }

  /** The step-wise reassignment of `s3BaseKey` in `resizeAndUpload`. */
  method DeriveBaseKey(h: Host, rule: Rule, secret: Option<string>, filename: string) returns (s3BaseKey: string)
    ensures s3BaseKey == BaseKey(h, rule, secret, filename)
  {
    var dir := Dirname(filename);
    var basePath := RemoveFirst(dir, rule.basePath);
    s3BaseKey := Join(rule.baseKey, Normalize(h, basePath));
    s3BaseKey := FrameSlashes(s3BaseKey);
    if secret.Some? && secret.value != "" {
      s3BaseKey := s3BaseKey + secret.value + "/";
    }
  }

  /** The base key always ends with `/`. */
  lemma BaseKeyEnds(h: Host, rule: Rule, secret: Option<string>, filename: string)
    ensures EndsWith(BaseKey(h, rule, secret, filename), "/")
  {
    DirKeyEnds(h, rule, Dirname(filename));
    BaseKeySecret(h, rule, secret, filename);
  }

  /** The join with its leading slash stripped. */
  function Stripped(h: Host, rule: Rule, dir: string): string {
    var j := JoinedKey(h, rule, dir);
    if |j| > 0 && j[0] == '/' then j[1..] else j
  }

  lemma DirKeyIsStripped(h: Host, rule: Rule, dir: string)
    ensures var k := Stripped(h, rule, dir);
      DirKey(h, rule, dir) == if |k| > 0 && k[|k| - 1] == '/' then k else k + "/"
  {
  }

  /** The directory key ends with `/` and starts with `/` only in the one case
      where the join is the bare root `/`. */
  lemma DirKeyEnds(h: Host, rule: Rule, dir: string)
    ensures var r := DirKey(h, rule, dir); |r| > 0 && r[|r| - 1] == '/'
    ensures var r := DirKey(h, rule, dir); r[0] == '/' <==> JoinedKey(h, rule, dir) == "/"
  {
    var slug := Normalize(h, RemoveFirst(dir, rule.basePath));
    var j := JoinedKey(h, rule, dir);
    var k := Stripped(h, rule, dir);
    DirKeyIsStripped(h, rule, dir);
    JoinCollapsed(rule.baseKey, slug);
    if |j| > 1 && j[0] == '/' {
      assert k[0] == j[1];
    }
  }

  /** The directory key holds no doubled slash. */
  lemma DirKeyCollapsed(h: Host, rule: Rule, dir: string)
    ensures var r := DirKey(h, rule, dir); forall i :: 0 <= i < |r| - 1 ==> !(r[i] == '/' && r[i + 1] == '/')
  {
    var slug := Normalize(h, RemoveFirst(dir, rule.basePath));
    var j := JoinedKey(h, rule, dir);
    var k := Stripped(h, rule, dir);
    DirKeyIsStripped(h, rule, dir);
    JoinCollapsed(rule.baseKey, slug);
    assert forall i :: 0 <= i < |k| - 1 ==> !(k[i] == '/' && k[i + 1] == '/') by {
      if |j| > 0 && j[0] == '/' {
        assert forall i :: 0 <= i < |k| ==> k[i] == j[i + 1];
      }
    }
  }

  lemma StrippedContent(h: Host, rule: Rule, dir: string)
    ensures Drop(Stripped(h, rule, dir), IsSlash) == Drop(JoinedKey(h, rule, dir), IsSlash)
  {
    var j := JoinedKey(h, rule, dir);
    var k := Stripped(h, rule, dir);
    if |j| > 0 && j[0] == '/' {
      assert j == [j[0]] + k;
      DropConcat([j[0]], k, IsSlash);
    }
  }

  lemma TrailingSlashContent(k: string)
    ensures Drop(if |k| > 0 && k[|k| - 1] == '/' then k else k + "/", IsSlash) == Drop(k, IsSlash)
  {
    if !(|k| > 0 && k[|k| - 1] == '/') {
      DropConcat(k, "/", IsSlash);
      assert Drop("/", IsSlash) == [];
    }
  }

  /** Framing a join with slashes adds or removes no segment. */
  lemma FramedSegments(j: string)
    ensures Segments(SlashFramed(j)) == Segments(j)
  {
    var k := if |j| > 0 && j[0] == '/' then j[1..] else j;
    if |j| > 0 && j[0] == '/' {
      assert j == "/" + k;
      SlashSegments(k);
    }
    SlashSegments(k);
  }

  /** The directory key is the base key followed by the slug, segment for
      segment, with a slash between them; it is `./` when both are empty. No
      character other than a slash is lost or added. */
  lemma DirKeyContent(h: Host, rule: Rule, dir: string)
    ensures var slug := Normalize(h, RemoveFirst(dir, rule.basePath));
      rule.baseKey + slug != "" ==> Segments(DirKey(h, rule, dir)) == Segments(rule.baseKey) + Segments(slug)
    ensures var slug := Normalize(h, RemoveFirst(dir, rule.basePath));
      rule.baseKey + slug == "" ==> DirKey(h, rule, dir) == "./"
    ensures var slug := Normalize(h, RemoveFirst(dir, rule.basePath));
      Drop(DirKey(h, rule, dir), IsSlash) == Drop(if rule.baseKey + slug == "" then "." else rule.baseKey + slug, IsSlash)
  {
    var slug := Normalize(h, RemoveFirst(dir, rule.basePath));
    DirKeyIsStripped(h, rule, dir);
    JoinKeepsSegments(rule.baseKey, slug);
    FramedSegments(JoinedKey(h, rule, dir));
    StrippedContent(h, rule, dir);
    TrailingSlashContent(Stripped(h, rule, dir));
  }

  /** With a secret the base key ends in `<secret>/`; without one it is the
      directory key alone, so no secret segment appears. */
  lemma BaseKeySecret(h: Host, rule: Rule, secret: Option<string>, filename: string)
    ensures secret.Some? && secret.value != "" ==>
      BaseKey(h, rule, secret, filename) == DirKey(h, rule, Dirname(filename)) + secret.value + "/"
      && EndsWith(BaseKey(h, rule, secret, filename), secret.value + "/")
    ensures secret == None ==> BaseKey(h, rule, secret, filename) == DirKey(h, rule, Dirname(filename))
  {
    var d := DirKey(h, rule, Dirname(filename));
    if secret.Some? {
      assert d + secret.value + "/" == d + (secret.value + "/");
    }
  }

  /** Key of the original upload: the base key and the raw basename. */
  function OriginalKey(base: string, filename: string): string {
    base + Basename(filename)
  }

  /** Key of a resized upload: `<base>sizes/<size>/<basename>`. */
  function SizeKey(base: string, size: seq<Dim>, filename: string): string {
    base + "sizes/" + SizeId(size) + "/" + Basename(filename)
  }

  /** The original key is the base key and the file's own basename, which is
      never normalised. */
  lemma OriginalKeyShape(base: string, filename: string)
    ensures StartsWith(OriginalKey(base, filename), base)
    ensures OriginalKey(base, filename)[|base|..] == Basename(filename)
  {
    var o := OriginalKey(base, filename);
    assert o[..|base|] == base;
  }

  /** A size key extends the base key and ends with `/` and the basename. */
  lemma SizeKeyShape(base: string, size: seq<Dim>, filename: string)
    ensures StartsWith(SizeKey(base, size, filename), base)
    ensures EndsWith(SizeKey(base, size, filename), "/" + Basename(filename))
  {
    var b := Basename(filename);
    var mid := "sizes/" + SizeId(size);
    assert SizeKey(base, size, filename) == base + (mid + ("/" + b));
    ConcatEnds(base, mid + ("/" + b));
    assert SizeKey(base, size, filename) == (base + mid) + ("/" + b);
    ConcatEnds(base + mid, "/" + b);
  }

  /** No resized upload overwrites the original: the size key carries the
      `sizes/<size>/` segment between the same base key and basename, so it is
      strictly longer. */
  lemma SizeKeyNotOriginal(base: string, size: seq<Dim>, filename: string)
    ensures SizeKey(base, size, filename) != OriginalKey(base, filename)
  {
    assert |SizeKey(base, size, filename)| > |OriginalKey(base, filename)|;
  }

  /** The size segment can be read back from a size key. */
  lemma SizeKeySameId(base: string, size: seq<Dim>, size': seq<Dim>, filename: string)
    requires SizeKey(base, size, filename) == SizeKey(base, size', filename)
    ensures SizeId(size) == SizeId(size')
  {
    var b := Basename(filename);
    var p := base + "sizes/";
    var id, id' := SizeId(size), SizeId(size');
    CancelRight(p + id + "/", p + id' + "/", b);
    CancelRight(p + id, p + id', "/");
    CancelLeft(p, id, id');
  }

  /** Two numeric sizes share a key only when they are the same size. */
  lemma SizeKeysDistinct(base: string, w: nat, h: nat, w': nat, h': nat, filename: string)
    requires SizeKey(base, [Num(w), Num(h)], filename) == SizeKey(base, [Num(w'), Num(h')], filename)
    ensures w == w' && h == h'
  {
    SizeKeySameId(base, [Num(w), Num(h)], [Num(w'), Num(h')], filename);
    SizeIdDecodes(w, h, w', h');
  }

  // A worked example: rule `/pics` with key prefix `photos` and no secret,
  // file `/pics/2023/trip/a.jpg`, size 200 by 200.

  lemma ExampleSplit(f: string)
    requires f == "/pics/2023/trip/a.jpg"
    ensures Dirname(f) == "/pics/2023/trip" && Basename(f) == "a.jpg"
  {
    assert f == "/pics/2023/trip" + "/" + "a.jpg";
    SplitJoined("/pics/2023/trip", "a.jpg");
  }

  lemma ExampleRelative(dir: string)
    requires dir == "/pics/2023/trip"
    ensures RemoveFirst(dir, "/pics") == "/2023/trip"
  {
    assert StartsWith(dir, "/pics");
    RemoveFirstPrefix(dir, "/pics");
  }

  lemma ExampleSlugHead(h: Host, s: string)
    requires s == "/2023/trip" && h.lower(s) == s && h.nfkd(s) == s
    ensures ReplaceRuns(Drop(Drop(h.nfkd(h.lower(s)), IsCombining), IsBang), IsWhitespace, '-') == s
  {
    PlainFront(s);
  }

  lemma ExampleSlugTail(s: string)
    requires s == "/2023/trip"
    ensures Drop(ReplaceRuns(Drop(ReplaceAmpersands(s), IsQuote), IsDash, '-'), IsDot) == s
  {
    PlainMiddle(s);
    PlainBack(s);
  }

  lemma ExampleSlug(h: Host, s: string)
    requires s == "/2023/trip" && h.lower(s) == s && h.nfkd(s) == s
    ensures Normalize(h, s) == s
  {
    ExampleSlugHead(h, s);
    ExampleSlugTail(s);
  }

  lemma ExampleJoinHead(j: string)
    requires j == "photos//2023/trip"
    ensures RunsFrom(j, 0, IsSlash, '/') == "photos/" + RunsFrom(j, 8, IsSlash, '/')
  {
    RunsPlain(j, 0, 6, IsSlash, '/');
    assert RunEnd(j, 8, IsSlash) == 8;
    assert RunEnd(j, 6, IsSlash) == 8;
    assert RunsFrom(j, 6, IsSlash, '/') == "/" + RunsFrom(j, 8, IsSlash, '/');
    assert j[0..6] == "photos";
  }

  lemma ExampleJoinMiddle(j: string)
    requires j == "photos//2023/trip"
    ensures RunsFrom(j, 8, IsSlash, '/') == "2023/" + RunsFrom(j, 13, IsSlash, '/')
  {
    RunsPlain(j, 8, 12, IsSlash, '/');
    assert RunEnd(j, 13, IsSlash) == 13;
    assert RunEnd(j, 12, IsSlash) == 13;
    assert RunsFrom(j, 12, IsSlash, '/') == "/" + RunsFrom(j, 13, IsSlash, '/');
    assert j[8..12] == "2023";
  }

  lemma ExampleJoinTail(j: string)
    requires j == "photos//2023/trip"
    ensures RunsFrom(j, 13, IsSlash, '/') == "trip"
  {
    RunsPlain(j, 13, 17, IsSlash, '/');
    assert RunsFrom(j, 17, IsSlash, '/') == [];
    assert j[13..17] == "trip";
  }

  lemma ExampleJoin(j: string)
    requires j == "photos//2023/trip"
    ensures ReplaceRuns(j, IsSlash, '/') == "photos/2023/trip"
  {
    ExampleJoinHead(j);
    ExampleJoinMiddle(j);
    ExampleJoinTail(j);
  }

  /** The join assembled from its computed parts. */
  lemma JoinedFromParts(h: Host, rule: Rule, dir: string, rel: string, slug: string, j: string)
    requires RemoveFirst(dir, rule.basePath) == rel && Normalize(h, rel) == slug
    requires rule.baseKey != "" && slug != ""
    requires ReplaceRuns(rule.baseKey + "/" + slug, IsSlash, '/') == j
    ensures JoinedKey(h, rule, dir) == j
  {
  }

  lemma ExampleJoinInput(a: string, b: string, c: string)
    requires a == "photos" && b == "/2023/trip" && c == "photos//2023/trip"
    ensures a + "/" + b == c
  {
    var j := a + "/" + b;
    forall k | 0 <= k < |c| ensures j[k] == c[k] {
      if k < 6 {
        assert j[k] == a[k];
      } else if k > 6 {
        assert j[k] == b[k - 7];
      }
    }
  }

  lemma ExampleJoined(h: Host, rule: Rule, dir: string)
    requires rule == Rule("/pics", "photos", false, "") && dir == "/pics/2023/trip"
    requires h.lower("/2023/trip") == "/2023/trip" && h.nfkd("/2023/trip") == "/2023/trip"
    ensures JoinedKey(h, rule, dir) == "photos/2023/trip"
  {
    ExampleRelative(dir);
    ExampleSlug(h, "/2023/trip");
    ExampleJoin("photos//2023/trip");
    ExampleJoinInput("photos", "/2023/trip", "photos//2023/trip");
    JoinedFromParts(h, rule, dir, "/2023/trip", "/2023/trip", "photos/2023/trip");
  }

  /** A join without a slash at either end just gains the trailing slash. */
  lemma DirKeyOfPlainJoin(h: Host, rule: Rule, dir: string, j: string)
    requires JoinedKey(h, rule, dir) == j
    requires j != [] && j[0] != '/' && j[|j| - 1] != '/'
    ensures DirKey(h, rule, dir) == j + "/"
  {
    DirKeyIsStripped(h, rule, dir);
  }

  lemma NatString200()
    ensures NatString(200) == "200"
  {
    assert NatString(2) == "2";
    assert NatString(20) == NatString(2) + [DigitChar(0)];
    assert NatString(200) == NatString(20) + [DigitChar(0)];
  }

  lemma ExampleSizeId()
    ensures SizeId([Num(200), Num(200)]) == "200x200"
  {
    SizeIdPair(200, 200);
    NatString200();
  }

  lemma ExampleOriginal(base: string, f: string)
    requires base == "photos/2023/trip/" && Basename(f) == "a.jpg"
    ensures OriginalKey(base, f) == "photos/2023/trip/a.jpg"
  {
  }

  lemma ExampleSizedParts(base: string, id: string, b: string, r: string)
    requires base == "photos/2023/trip/" && id == "200x200" && b == "a.jpg"
    requires r == "photos/2023/trip/sizes/200x200/a.jpg"
    ensures base + "sizes/" + id + "/" + b == r
  {
    var z := base + "sizes/" + id + "/" + b;
    forall k | 0 <= k < |r| ensures z[k] == r[k] {
      if k < 17 {
        assert z[k] == base[k];
      } else if k < 23 {
        assert z[k] == "sizes/"[k - 17];
      } else if k < 30 {
        assert z[k] == id[k - 23];
      } else if k > 30 {
        assert z[k] == b[k - 31];
      }
    }
  }

  lemma ExampleSized(base: string, f: string)
    requires base == "photos/2023/trip/" && Basename(f) == "a.jpg"
    requires SizeId([Num(200), Num(200)]) == "200x200"
    ensures SizeKey(base, [Num(200), Num(200)], f) == "photos/2023/trip/sizes/200x200/a.jpg"
  {
    ExampleSizedParts(base, "200x200", "a.jpg", "photos/2023/trip/sizes/200x200/a.jpg");
  }

  /** The original lands at `photos/2023/trip/a.jpg` and the 200 by 200
      derivative at `photos/2023/trip/sizes/200x200/a.jpg`. */
  lemma ExampleKeys(h: Host, rule: Rule, f: string)
    requires rule == Rule("/pics", "photos", false, "") && f == "/pics/2023/trip/a.jpg"
    requires h.lower("/2023/trip") == "/2023/trip" && h.nfkd("/2023/trip") == "/2023/trip"
    ensures OriginalKey(BaseKey(h, rule, None, f), f) == "photos/2023/trip/a.jpg"
    ensures SizeKey(BaseKey(h, rule, None, f), [Num(200), Num(200)], f) == "photos/2023/trip/sizes/200x200/a.jpg"
  {
    ExampleSplit(f);
    ExampleJoined(h, rule, "/pics/2023/trip");
    DirKeyOfPlainJoin(h, rule, "/pics/2023/trip", "photos/2023/trip");
    ExampleSizeId();
    ExampleOriginal(BaseKey(h, rule, None, f), f);
    ExampleSized(BaseKey(h, rule, None, f), f);
  }
}

/**
  The serial control flow of the uploader (index.js:81-144, 151-195): every
  argument path in order, every listed `.jpg` of a directory in order, and for
  each file the original upload followed by one upload per configured size.
  The `async.eachSeries` callbacks run strictly one after another, so the run
  is a function of the arguments and of the outcomes the filesystem, S3 and
  ImageMagick report, given here as oracles. The result is the trace of
  uploads attempted and paths skipped.

  Each series is specified by a function over a prefix of its list, which is
  what the loop that walks the list has built after each step.
 */
module Batch {
  import opened Text
  import opened Paths
  import opened Routing
  import opened Keys

  /** The parts of the configuration the core reads. */
  datatype Config = Config(dirs: seq<Rule>, sizes: seq<seq<Dim>>)

  /** `config.dirs.map(d => d.basePath)`. */
  function BasePaths(cfg: Config): seq<string> {
    seq(|cfg.dirs|, i requires 0 <= i < |cfg.dirs| => cfg.dirs[i].basePath)
  }

  /** What the outside world answers: `path.resolve`, `fs.exists`,
      `lstatSync(p).isDirectory()`, `readdirSync`, whether an S3 upload
      succeeds, and whether ImageMagick produces a resized stream. */
  datatype World = World(
    resolve: string -> string,
    pathExists: string -> bool,
    isDirectory: string -> bool,
    readdir: string -> seq<string>,
    uploadOk: string -> bool,
    resizeOk: (string, seq<Dim>) -> bool)

  datatype Event =
    | NoRule(path: string)                  // no configured base path is a prefix
    | Missing(path: string)                 // the path does not exist
    | Upload(key: string, ok: bool)         // an upload attempt and its outcome
    | ResizeFailed(file: string, size: string) // a marker of the model: the source logs nothing here
    | Finished(logged: Option<string>)      // the key logged at the end of an argument

  /** The state of an `eachSeries` walk: the events so far, the last key
      assigned, and whether a step has ended the series with an error. */
  datatype Run = Run(events: seq<Event>, last: Option<string>, stopped: bool)

  // ---------------------------------------------------------------- series

  /** `async.eachSeries` after the given items: each step runs once the one
      before it has called back, and a step that calls back with an error
      ends the series. */
  function Series<T>(xs: seq<T>, step: T -> Run): Run {
    if xs == [] then Run([], None, false)
    else
      var before := Series(xs[..|xs| - 1], step);
      if before.stopped then before
      else
        var r := step(xs[|xs| - 1]);
        Run(before.events + r.events, r.last, r.stopped)
  }

  /** Index of the first item whose step fails, or the number of items. */
  function FirstStop<T>(xs: seq<T>, step: T -> Run): (n: nat)
    ensures n <= |xs|
    ensures forall i :: 0 <= i < n ==> !step(xs[i]).stopped
    ensures n < |xs| ==> step(xs[n]).stopped
  {
    if xs == [] then 0
    else
      var k := |xs| - 1;
      var n := FirstStop(xs[..k], step);
      if n < k then n else if step(xs[k]).stopped then k else k + 1
  }

  /** The events of every step, in order, none skipped. */
  function Concatenated<T>(xs: seq<T>, step: T -> Run): seq<Event> {
    if xs == [] then [] else Concatenated(xs[..|xs| - 1], step) + step(xs[|xs| - 1]).events
  }

  /** The first failing step is the first one whose step fails. */
  lemma FirstStopUnique<T>(xs: seq<T>, step: T -> Run, m: nat)
    requires m <= |xs|
    requires forall i :: 0 <= i < m ==> !step(xs[i]).stopped
    requires m < |xs| ==> step(xs[m]).stopped
    ensures FirstStop(xs, step) == m
  {
  }

  /** Once a step has failed, the remaining items change nothing. */
  lemma {:induction false} SeriesStops<T>(xs: seq<T>, k: nat, step: T -> Run)
    requires k <= |xs|
    requires Series(xs[..k], step).stopped
    ensures Series(xs, step) == Series(xs[..k], step)
    decreases |xs|
  {
    if k == |xs| {
      assert xs[..k] == xs;
    } else {
      var init := xs[..|xs| - 1];
      assert init[..k] == xs[..k];
      SeriesStops(init, k, step);
    }
  }

  /** The series runs every step up to and including the first failing one,
      in order, and no step after it; the last key is that of the last step
      run. */
  lemma {:induction false} SeriesShape<T>(xs: seq<T>, step: T -> Run)
    ensures Series(xs, step).stopped <==> FirstStop(xs, step) < |xs|
    ensures var n := FirstStop(xs, step); var r := Series(xs, step);
      n < |xs| ==> r.events == Concatenated(xs[..n + 1], step) && r.last == step(xs[n]).last
    ensures var r := Series(xs, step);
      FirstStop(xs, step) == |xs| ==>
        r.events == Concatenated(xs, step) && r.last == (if xs == [] then None else step(xs[|xs| - 1]).last)
    decreases |xs|
  {
    if xs != [] {
      var k := |xs| - 1;
      var init := xs[..k];
      SeriesShape(init, step);
      var n := FirstStop(init, step);
      if n < k {
        assert init[..n + 1] == xs[..n + 1] && init[n] == xs[n];
      } else {
        assert xs[..k + 1] == xs;
      }
    }
  }

  /** Two runs that differ at most in the outcomes their uploads report. */
  predicate SameButUploads(r: Run, r': Run) {
    Erase(r.events) == Erase(r'.events) && r.last == r'.last && r.stopped == r'.stopped
  }

  /** Steps that differ only in upload outcomes give such series. */
  lemma {:induction false} SeriesBlind<T>(xs: seq<T>, step: T -> Run, step': T -> Run)
    requires forall i :: 0 <= i < |xs| ==> SameButUploads(step(xs[i]), step'(xs[i]))
    ensures SameButUploads(Series(xs, step), Series(xs, step'))
    decreases |xs|
  {
    if xs != [] {
      var init := xs[..|xs| - 1];
      assert forall i :: 0 <= i < |init| ==> init[i] == xs[i];
      SeriesBlind(init, step, step');
      var b, b' := Series(init, step), Series(init, step');
      var r, r' := step(xs[|xs| - 1]), step'(xs[|xs| - 1]);
      assert SameButUploads(r, r');
      EraseConcat(b.events, r.events);
      EraseConcat(b'.events, r'.events);
    }
  }

  // ---------------------------------------------------------------- sizes

  /** One size (index.js:173-192): resize, then upload under the size key;
      the upload's own error is dropped. */
  function SizeUpload(w: World, base: string, filename: string, size: seq<Dim>): Run {
    if !w.resizeOk(filename, size) then Run([ResizeFailed(filename, SizeId(size))], None, true)
    else
      var key := SizeKey(base, size, filename);
      Run([Upload(key, w.uploadOk(key))], None, false)
  }

  function SizeSteps(w: World, base: string, filename: string): seq<Dim> -> Run {
    (size: seq<Dim>) => SizeUpload(w, base, filename, size)
  }

  /** The `eachSeries` over `config.sizes`. */
  function SizeRun(w: World, base: string, sizes: seq<seq<Dim>>, filename: string): Run {
    Series(sizes, SizeSteps(w, base, filename))
  }

  /** Index of the first size ImageMagick fails on, or the number of sizes. */
  function FirstFailure(w: World, sizes: seq<seq<Dim>>, filename: string): (n: nat)
    ensures n <= |sizes|
    ensures forall i :: 0 <= i < n ==> w.resizeOk(filename, sizes[i])
    ensures n < |sizes| ==> !w.resizeOk(filename, sizes[n])
  {
    if sizes == [] then 0
    else if !w.resizeOk(filename, sizes[0]) then 0
    else 1 + FirstFailure(w, sizes[1..], filename)
  }

  /** The uploads of the given sizes, in order. */
  function SizedUploads(w: World, base: string, sizes: seq<seq<Dim>>, filename: string): (r: seq<Event>)
    ensures |r| == |sizes|
  {
    seq(|sizes|, i requires 0 <= i < |sizes| =>
      Upload(SizeKey(base, sizes[i], filename), w.uploadOk(SizeKey(base, sizes[i], filename))))
  }

  lemma SizedUploadsSnoc(w: World, base: string, sizes: seq<seq<Dim>>, filename: string)
    requires sizes != []
    ensures var k := |sizes| - 1; var key := SizeKey(base, sizes[k], filename);
      SizedUploads(w, base, sizes, filename) == SizedUploads(w, base, sizes[..k], filename) + [Upload(key, w.uploadOk(key))]
  {
    var k := |sizes| - 1;
    var key := SizeKey(base, sizes[k], filename);
    var a := SizedUploads(w, base, sizes, filename);
    var b := SizedUploads(w, base, sizes[..k], filename) + [Upload(key, w.uploadOk(key))];
    assert forall i :: 0 <= i < |a| ==> a[i] == b[i];
  }

  lemma SizeUploaded(w: World, base: string, filename: string, size: seq<Dim>)
    requires w.resizeOk(filename, size)
    ensures var key := SizeKey(base, size, filename);
      SizeSteps(w, base, filename)(size).events == [Upload(key, w.uploadOk(key))]
  {
  }

  /** Sizes that all resize give exactly their uploads. */
  lemma {:induction false} AllSizesUploaded(w: World, base: string, sizes: seq<seq<Dim>>, filename: string)
    requires forall i :: 0 <= i < |sizes| ==> w.resizeOk(filename, sizes[i])
    ensures Concatenated(sizes, SizeSteps(w, base, filename)) == SizedUploads(w, base, sizes, filename)
    decreases |sizes|
  {
    if sizes != [] {
      var k := |sizes| - 1;
      var init := sizes[..k];
      assert forall i :: 0 <= i < |init| ==> init[i] == sizes[i];
      AllSizesUploaded(w, base, init, filename);
      SizeUploaded(w, base, filename, sizes[k]);
      SizedUploadsSnoc(w, base, sizes, filename);
    }
  }

  /** The size that ends the series is the first one ImageMagick fails on. */
  lemma FirstSizeStop(w: World, base: string, sizes: seq<seq<Dim>>, filename: string)
    ensures FirstStop(sizes, SizeSteps(w, base, filename)) == FirstFailure(w, sizes, filename)
  {
    FirstStopUnique(sizes, SizeSteps(w, base, filename), FirstFailure(w, sizes, filename));
  }

  /** The sizes of a file end with an error exactly when some resize fails. */
  lemma SizeRunFails(w: World, base: string, sizes: seq<seq<Dim>>, filename: string)
    ensures SizeRun(w, base, sizes, filename).stopped <==> FirstFailure(w, sizes, filename) < |sizes|
  {
    FirstSizeStop(w, base, sizes, filename);
    SeriesShape(sizes, SizeSteps(w, base, filename));
  }

  /** The first failing size is the last one attempted: every size before it
      is uploaded in configuration order, whatever the uploads report, and
      none after it is tried. */
  lemma SizeRunFailsAt(w: World, base: string, sizes: seq<seq<Dim>>, filename: string)
    ensures var n := FirstFailure(w, sizes, filename);
      n < |sizes| ==>
        SizeRun(w, base, sizes, filename).events
        == SizedUploads(w, base, sizes[..n], filename) + [ResizeFailed(filename, SizeId(sizes[n]))]
  {
    var n := FirstFailure(w, sizes, filename);
    if n < |sizes| {
      var step := SizeSteps(w, base, filename);
      FirstSizeStop(w, base, sizes, filename);
      SeriesShape(sizes, step);
      var done := sizes[..n];
      assert forall i :: 0 <= i < |done| ==> done[i] == sizes[i];
      AllSizesUploaded(w, base, done, filename);
      assert sizes[..n + 1][..n] == done;
    }
  }

  /** When every resize succeeds, every size is uploaded in order. */
  lemma SizeRunCompletes(w: World, base: string, sizes: seq<seq<Dim>>, filename: string)
    ensures FirstFailure(w, sizes, filename) == |sizes| ==>
      SizeRun(w, base, sizes, filename).events == SizedUploads(w, base, sizes, filename)
  {
    if FirstFailure(w, sizes, filename) == |sizes| {
      FirstSizeStop(w, base, sizes, filename);
      SeriesShape(sizes, SizeSteps(w, base, filename));
      AllSizesUploaded(w, base, sizes, filename);
    }
  }

  // ---------------------------------------------------------------- one file

  /** `resizeAndUpload` (index.js:151-195) once its base key is known: the
      original first, then the sizes; the base key is what the caller logs. */
  function ProcessFile(w: World, cfg: Config, base: string, filename: string): Run {
    var orig := OriginalKey(base, filename);
    var sizes := SizeRun(w, base, cfg.sizes, filename);
    Run([Upload(orig, w.uploadOk(orig))] + sizes.events, Some(base), sizes.stopped)
  }

  /** The base key of every file under one rule and secret. */
  function KeysOf(h: Host, rule: Rule, secret: Option<string>): string -> string {
    (filename: string) => BaseKey(h, rule, secret, filename)
  }

  /** Whether ImageMagick fails on some configured size of the file. */
  predicate ResizeFails(w: World, sizes: seq<seq<Dim>>, filename: string) {
    FirstFailure(w, sizes, filename) < |sizes|
  }

  /** A file fails exactly when some resize fails, whatever its uploads
      report. */
  lemma ProcessFileFails(w: World, cfg: Config, base: string, filename: string)
    ensures ProcessFile(w, cfg, base, filename).stopped <==> ResizeFails(w, cfg.sizes, filename)
  {
    SizeRunFails(w, base, cfg.sizes, filename);
  }

  /** For each file the original is uploaded first and its outcome affects
      nothing; the sizes follow in configuration order up to the first resize
      failure. */
  lemma ProcessFileShape(w: World, cfg: Config, base: string, filename: string)
    ensures var orig := Upload(OriginalKey(base, filename), w.uploadOk(OriginalKey(base, filename)));
      var n := FirstFailure(w, cfg.sizes, filename);
      n < |cfg.sizes| ==>
        ProcessFile(w, cfg, base, filename).events
        == [orig] + SizedUploads(w, base, cfg.sizes[..n], filename) + [ResizeFailed(filename, SizeId(cfg.sizes[n]))]
    ensures var orig := Upload(OriginalKey(base, filename), w.uploadOk(OriginalKey(base, filename)));
      FirstFailure(w, cfg.sizes, filename) == |cfg.sizes| ==>
        ProcessFile(w, cfg, base, filename).events
        == [orig] + SizedUploads(w, base, cfg.sizes, filename)
  {
    var orig := Upload(OriginalKey(base, filename), w.uploadOk(OriginalKey(base, filename)));
    var n := FirstFailure(w, cfg.sizes, filename);
    SizeRunFailsAt(w, base, cfg.sizes, filename);
    SizeRunCompletes(w, base, cfg.sizes, filename);
    if n < |cfg.sizes| {
      var ups, fail := SizedUploads(w, base, cfg.sizes[..n], filename), [ResizeFailed(filename, SizeId(cfg.sizes[n]))];
      assert [orig] + (ups + fail) == [orig] + ups + fail;
    }
  }

  // ---------------------------------------------------------------- directories

  /** The directory listing filter: lowercased name ends with `jpg`. */
  function JpgFiles(h: Host, names: seq<string>): seq<string> {
    Filter(names, (f: string) => EndsWith(h.lower(f), "jpg"))
  }

  /** A name is listed exactly when its lowercase form ends with `jpg`;
      there is no dot in the test, so `notjpg` passes. */
  lemma JpgFilesMembers(h: Host, names: seq<string>, x: string)
    ensures x in JpgFiles(h, names) <==> x in names && EndsWith(h.lower(x), "jpg")
  {
    var keep := (f: string) => EndsWith(h.lower(f), "jpg");
    var r := JpgFiles(h, names);
    if x in r {
      var i :| 0 <= i < |r| && r[i] == x;
      assert keep(r[i]);
    }
    if x in names && keep(x) {
      var i :| 0 <= i < |names| && names[i] == x;
      assert keep(names[i]);
    }
  }

  /** The filter keeps listing order. */
  lemma JpgFilesOrder(h: Host, a: seq<string>, b: seq<string>)
    ensures JpgFiles(h, a + b) == JpgFiles(h, a) + JpgFiles(h, b)
  {
    FilterConcat(a, b, (f: string) => EndsWith(h.lower(f), "jpg"));
  }

  /** One file of a directory (index.js:114-120): `s3Key` becomes its base
      key, and its error ends the directory. `keyOf` gives the base key of a
      file path. */
  function FileStep(w: World, cfg: Config, keyOf: string -> string, p: string, name: string): Run {
    ProcessFile(w, cfg, keyOf(p + "/" + name), p + "/" + name)
  }

  function FileSteps(w: World, cfg: Config, keyOf: string -> string, p: string): string -> Run {
    (name: string) => FileStep(w, cfg, keyOf, p, name)
  }

  lemma FileStepFacts(w: World, cfg: Config, keyOf: string -> string, p: string, name: string)
    ensures FileSteps(w, cfg, keyOf, p)(name).stopped <==> ResizeFails(w, cfg.sizes, p + "/" + name)
    ensures FileSteps(w, cfg, keyOf, p)(name).last == Some(keyOf(p + "/" + name))
  {
    ProcessFileFails(w, cfg, keyOf(p + "/" + name), p + "/" + name);
  }

  /** The `eachSeries` over a directory's files (index.js:113-124). */
  function DirRun(w: World, cfg: Config, keyOf: string -> string, p: string, files: seq<string>): Run {
    Series(files, FileSteps(w, cfg, keyOf, p))
  }

  /** Index of the first file of the directory some resize fails on, or the
      number of files. */
  function FirstFailedFile(w: World, cfg: Config, p: string, files: seq<string>): (n: nat)
    ensures n <= |files|
    ensures forall i :: 0 <= i < n ==> !ResizeFails(w, cfg.sizes, p + "/" + files[i])
    ensures n < |files| ==> ResizeFails(w, cfg.sizes, p + "/" + files[n])
  {
    if files == [] then 0
    else if ResizeFails(w, cfg.sizes, p + "/" + files[0]) then 0
    else 1 + FirstFailedFile(w, cfg, p, files[1..])
  }

  /** The file that ends the directory is the first one a resize fails on. */
  lemma FirstFileStop(w: World, cfg: Config, keyOf: string -> string, p: string, files: seq<string>)
    ensures FirstStop(files, FileSteps(w, cfg, keyOf, p)) == FirstFailedFile(w, cfg, p, files)
  {
    var step := FileSteps(w, cfg, keyOf, p);
    forall i | 0 <= i < |files|
      ensures step(files[i]).stopped <==> ResizeFails(w, cfg.sizes, p + "/" + files[i])
    {
      FileStepFacts(w, cfg, keyOf, p, files[i]);
    }
    FirstStopUnique(files, step, FirstFailedFile(w, cfg, p, files));
  }

  /** A directory's series ends with an error exactly when a resize fails
      on one of its files. */
  lemma DirRunStops(w: World, cfg: Config, keyOf: string -> string, p: string, files: seq<string>)
    ensures DirRun(w, cfg, keyOf, p, files).stopped <==> FirstFailedFile(w, cfg, p, files) < |files|
  {
    FirstFileStop(w, cfg, keyOf, p, files);
    SeriesShape(files, FileSteps(w, cfg, keyOf, p));
  }

  /** The files are processed in listing order up to and including the first
      one a resize fails on, and none after it; the logged key is that
      file's base key. */
  lemma DirRunFailsAt(w: World, cfg: Config, keyOf: string -> string, p: string, files: seq<string>)
    ensures var n := FirstFailedFile(w, cfg, p, files); var d := DirRun(w, cfg, keyOf, p, files);
      n < |files| ==>
        d.events == Concatenated(files[..n + 1], FileSteps(w, cfg, keyOf, p))
        && d.last == Some(keyOf(p + "/" + files[n]))
  {
    var n := FirstFailedFile(w, cfg, p, files);
    if n < |files| {
      FirstFileStop(w, cfg, keyOf, p, files);
      SeriesShape(files, FileSteps(w, cfg, keyOf, p));
      FileStepFacts(w, cfg, keyOf, p, files[n]);
    }
  }

  /** When no resize fails, every file is processed in listing order and the
      logged key is that of the last file, or none for an empty listing. */
  lemma DirRunCompletes(w: World, cfg: Config, keyOf: string -> string, p: string, files: seq<string>)
    ensures var d := DirRun(w, cfg, keyOf, p, files);
      FirstFailedFile(w, cfg, p, files) == |files| ==>
        d.events == Concatenated(files, FileSteps(w, cfg, keyOf, p))
        && d.last == (if files == [] then None else Some(keyOf(p + "/" + files[|files| - 1])))
  {
    FirstFileStop(w, cfg, keyOf, p, files);
    SeriesShape(files, FileSteps(w, cfg, keyOf, p));
    if files != [] {
      FileStepFacts(w, cfg, keyOf, p, files[|files| - 1]);
    }
  }

  /** All files of one directory share a base key, and with it the secret
      segment, whatever the directory path (the root `/` included):
      directory listings hold bare names. */
  lemma DirectoryShareBase(h: Host, rule: Rule, secret: Option<string>, p: string, f: string, g: string)
    requires f != "" && '/' !in f && g != "" && '/' !in g
    ensures BaseKey(h, rule, secret, p + "/" + f) == BaseKey(h, rule, secret, p + "/" + g)
  {
    DirnameOfEntry(p, f);
    DirnameOfEntry(p, g);
  }

  // ---------------------------------------------------------------- arguments

  /** One argument path (index.js:89-141). */
  function PathTrace(h: Host, w: World, cfg: Config, p: string): seq<Event> {
    var i := Route(BasePaths(cfg), p);
    if i == -1 then [NoRule(p)]
    else if !w.pathExists(p) then [Missing(p)]
    else
      var rule := cfg.dirs[i];
      var secret := SecretParam(h, p, rule);
      if w.isDirectory(p) then
        var d := DirRun(w, cfg, KeysOf(h, rule, secret), p, JpgFiles(h, w.readdir(p)));
        d.events + [Finished(d.last)]
      else
        var f := ProcessFile(w, cfg, BaseKey(h, rule, secret, p), p);
        f.events + [Finished(f.last)]
  }

  /** The outer `eachSeries` over the argument paths. */
  function BatchTrace(h: Host, w: World, cfg: Config, paths: seq<string>): seq<Event> {
    if paths == [] then []
    else BatchTrace(h, w, cfg, paths[..|paths| - 1]) + PathTrace(h, w, cfg, paths[|paths| - 1])
  }

  /** `argv._.map(resolvePath)`: `~/` expansion, then `path.resolve`. */
  function ResolveArgs(w: World, home: string, args: seq<string>): seq<string> {
    seq(|args|, i requires 0 <= i < |args| => w.resolve(ExpandTilde(args[i], home)))
  }

  /** Arguments are independent: the trace of a list is the traces of its
      parts, so nothing an argument does stops the next. */
  lemma {:induction false} BatchConcat(h: Host, w: World, cfg: Config, a: seq<string>, b: seq<string>)
    ensures BatchTrace(h, w, cfg, a + b) == BatchTrace(h, w, cfg, a) + BatchTrace(h, w, cfg, b)
    decreases |b|
  {
    if b == [] {
      assert a + b == a;
    } else {
      var k := |b| - 1;
      BatchConcat(h, w, cfg, a, b[..k]);
      assert (a + b)[..|a + b| - 1] == a + b[..k];
      assert (a + b)[|a + b| - 1] == b[k];
      AppendAssoc(BatchTrace(h, w, cfg, a), BatchTrace(h, w, cfg, b[..k]), PathTrace(h, w, cfg, b[k]));
    }
  }

  lemma AppendAssoc(x: seq<Event>, y: seq<Event>, z: seq<Event>)
    ensures (x + y) + z == x + (y + z)
  {
  }

  /** A path no rule governs is logged and skipped, and the run goes on with
      the next argument. */
  lemma SkipUnrouted(h: Host, w: World, cfg: Config, p: string, rest: seq<string>)
    requires Route(BasePaths(cfg), p) == -1
    ensures BatchTrace(h, w, cfg, [p] + rest) == [NoRule(p)] + BatchTrace(h, w, cfg, rest)
  {
    NextArgumentRuns(h, w, cfg, p, rest);
  }

  lemma BatchSnoc(h: Host, w: World, cfg: Config, paths: seq<string>, k: nat)
    requires k < |paths|
    ensures BatchTrace(h, w, cfg, paths[..k + 1]) == BatchTrace(h, w, cfg, paths[..k]) + PathTrace(h, w, cfg, paths[k])
  {
    assert paths[..k + 1][..k] == paths[..k];
  }

  lemma BatchSingle(h: Host, w: World, cfg: Config, p: string)
    ensures BatchTrace(h, w, cfg, [p]) == PathTrace(h, w, cfg, p)
  {
    assert [p][..0] == [];
  }

  /** Whatever happens inside a directory argument, including a file error,
      the next argument is processed. */
  lemma NextArgumentRuns(h: Host, w: World, cfg: Config, p: string, rest: seq<string>)
    ensures BatchTrace(h, w, cfg, [p] + rest) == PathTrace(h, w, cfg, p) + BatchTrace(h, w, cfg, rest)
  {
    BatchConcat(h, w, cfg, [p], rest);
    BatchSingle(h, w, cfg, p);
  }

  // ---------------------------------------------------------------- upload outcomes

  /** An event with its upload outcome forgotten. */
  function Blind(e: Event): Event {
    if e.Upload? then Upload(e.key, true) else e
  }

  function Erase(es: seq<Event>): seq<Event> {
    seq(|es|, i requires 0 <= i < |es| => Blind(es[i]))
  }

  lemma EraseConcat(a: seq<Event>, b: seq<Event>)
    ensures Erase(a + b) == Erase(a) + Erase(b)
  {
    assert forall i :: 0 <= i < |a + b| ==> Erase(a + b)[i] == (Erase(a) + Erase(b))[i] by {
      forall i | 0 <= i < |a + b| ensures Erase(a + b)[i] == (Erase(a) + Erase(b))[i] {
        if i < |a| {
          assert (a + b)[i] == a[i];
        } else {
          assert (a + b)[i] == b[i - |a|];
        }
      }
    }
  }

  lemma SizeRunBlind(w: World, ok: string -> bool, base: string, sizes: seq<seq<Dim>>, filename: string)
    ensures SameButUploads(SizeRun(w, base, sizes, filename), SizeRun(w.(uploadOk := ok), base, sizes, filename))
  {
    var step, step' := SizeSteps(w, base, filename), SizeSteps(w.(uploadOk := ok), base, filename);
    forall i | 0 <= i < |sizes| ensures SameButUploads(step(sizes[i]), step'(sizes[i])) {
      var key := SizeKey(base, sizes[i], filename);
      assert Erase([Upload(key, w.uploadOk(key))]) == Erase([Upload(key, ok(key))]);
    }
    SeriesBlind(sizes, step, step');
  }

  lemma ProcessFileBlind(w: World, ok: string -> bool, cfg: Config, base: string, filename: string)
    ensures SameButUploads(ProcessFile(w, cfg, base, filename), ProcessFile(w.(uploadOk := ok), cfg, base, filename))
  {
    var orig := OriginalKey(base, filename);
    SizeRunBlind(w, ok, base, cfg.sizes, filename);
    EraseConcat([Upload(orig, w.uploadOk(orig))], SizeRun(w, base, cfg.sizes, filename).events);
    EraseConcat([Upload(orig, ok(orig))], SizeRun(w.(uploadOk := ok), base, cfg.sizes, filename).events);
  }

  lemma DirRunBlind(w: World, ok: string -> bool, cfg: Config, keyOf: string -> string, p: string, files: seq<string>)
    ensures SameButUploads(DirRun(w, cfg, keyOf, p, files), DirRun(w.(uploadOk := ok), cfg, keyOf, p, files))
  {
    var step, step' := FileSteps(w, cfg, keyOf, p), FileSteps(w.(uploadOk := ok), cfg, keyOf, p);
    forall i | 0 <= i < |files| ensures SameButUploads(step(files[i]), step'(files[i])) {
      ProcessFileBlind(w, ok, cfg, keyOf(p + "/" + files[i]), p + "/" + files[i]);
    }
    SeriesBlind(files, step, step');
  }

  lemma PathTraceBlind(h: Host, w: World, ok: string -> bool, cfg: Config, p: string)
    ensures Erase(PathTrace(h, w, cfg, p)) == Erase(PathTrace(h, w.(uploadOk := ok), cfg, p))
  {
    var w' := w.(uploadOk := ok);
    var i := Route(BasePaths(cfg), p);
    if i != -1 && w.pathExists(p) {
      var rule := cfg.dirs[i];
      var secret := SecretParam(h, p, rule);
      var d, d';
      if w.isDirectory(p) {
        var files := JpgFiles(h, w.readdir(p));
        d, d' := DirRun(w, cfg, KeysOf(h, rule, secret), p, files), DirRun(w', cfg, KeysOf(h, rule, secret), p, files);
        DirRunBlind(w, ok, cfg, KeysOf(h, rule, secret), p, files);
      } else {
        var base := BaseKey(h, rule, secret, p);
        d, d' := ProcessFile(w, cfg, base, p), ProcessFile(w', cfg, base, p);
        ProcessFileBlind(w, ok, cfg, base, p);
      }
      EraseConcat(d.events, [Finished(d.last)]);
      EraseConcat(d'.events, [Finished(d'.last)]);
    }
  }

  /** Upload errors are dropped: the run attempts the same uploads, in the
      same order, whatever S3 answers. */
  lemma {:induction false} UploadOutcomesIgnored(h: Host, w: World, ok: string -> bool, cfg: Config, paths: seq<string>)
    ensures Erase(BatchTrace(h, w, cfg, paths)) == Erase(BatchTrace(h, w.(uploadOk := ok), cfg, paths))
    decreases |paths|
  {
    if paths != [] {
      var init := paths[..|paths| - 1];
      var last := paths[|paths| - 1];
      UploadOutcomesIgnored(h, w, ok, cfg, init);
      PathTraceBlind(h, w, ok, cfg, last);
      EraseConcat(BatchTrace(h, w, cfg, init), PathTrace(h, w, cfg, last));
      EraseConcat(BatchTrace(h, w.(uploadOk := ok), cfg, init), PathTrace(h, w.(uploadOk := ok), cfg, last));
    }
  }

  // ---------------------------------------------------------------- the imperative code

  /** The `eachSeries` over the sizes of one file, with the size string
      built by `map`/`join` and the size key by concatenation. */
  method UploadSizes(w: World, cfg: Config, s3BaseKey: string, filename: string)
    returns (sized: seq<Event>, failed: bool)
    ensures Run(sized, None, failed) == SizeRun(w, s3BaseKey, cfg.sizes, filename)
  {
    var basename := Basename(filename);
    sized := [];
    failed := false;
    var k := 0;
    while k < |cfg.sizes| && !failed
      invariant 0 <= k <= |cfg.sizes|
      invariant Run(sized, None, failed) == SizeRun(w, s3BaseKey, cfg.sizes[..k], filename)
      decreases |cfg.sizes| - k
    {
      var size := cfg.sizes[k];
      assert cfg.sizes[..k + 1][..k] == cfg.sizes[..k];
      var sizeStr := SizeId(size);
      if w.resizeOk(filename, size) {
        var s3Key := s3BaseKey + "sizes/" + sizeStr + "/" + basename;
        sized := sized + [Upload(s3Key, w.uploadOk(s3Key))];
      } else {
        sized := sized + [ResizeFailed(filename, sizeStr)];
        failed := true;
      }
      k := k + 1;
    }
    if failed {
      SeriesStops(cfg.sizes, k, SizeSteps(w, s3BaseKey, filename));
    } else {
      assert cfg.sizes[..k] == cfg.sizes;
    }
  }

  /** `resizeAndUpload`: the key assembled step by step, the original
      uploaded, then the sizes. */
  method ResizeAndUpload(h: Host, w: World, cfg: Config, rule: Rule, secret: Option<string>, filename: string)
    returns (events: seq<Event>, failed: bool, s3BaseKey: string)
    ensures s3BaseKey == KeysOf(h, rule, secret)(filename)
    ensures Run(events, Some(s3BaseKey), failed) == ProcessFile(w, cfg, s3BaseKey, filename)
  {
    s3BaseKey := DeriveBaseKey(h, rule, secret, filename);
    var original := s3BaseKey + Basename(filename);
    var sized;
    sized, failed := UploadSizes(w, cfg, s3BaseKey, filename);
    events := [Upload(original, w.uploadOk(original))] + sized;
  }

  /** The directory loop: `s3Key` is reassigned after every file and the
      first file error ends the loop. */
  method ProcessDirectory(h: Host, w: World, cfg: Config, rule: Rule, secret: Option<string>, p: string, files: seq<string>)
    returns (events: seq<Event>, s3Key: Option<string>)
    ensures var d := DirRun(w, cfg, KeysOf(h, rule, secret), p, files); events == d.events && s3Key == d.last
  {
    events := [];
    s3Key := None;
    var stopped := false;
    var k := 0;
    while k < |files| && !stopped
      invariant 0 <= k <= |files|
      invariant Run(events, s3Key, stopped) == DirRun(w, cfg, KeysOf(h, rule, secret), p, files[..k])
      decreases |files| - k
    {
      assert files[..k + 1][..k] == files[..k];
      var fileEvents, err, s3BaseKey := ResizeAndUpload(h, w, cfg, rule, secret, p + "/" + files[k]);
      assert FileSteps(w, cfg, KeysOf(h, rule, secret), p)(files[k]) == Run(fileEvents, Some(s3BaseKey), err);
      events := events + fileEvents;
      s3Key := Some(s3BaseKey);
      stopped := err;
      k := k + 1;
    }
    if stopped {
      SeriesStops(files, k, FileSteps(w, cfg, KeysOf(h, rule, secret), p));
    } else {
      assert files[..k] == files;
    }
  }

  /** One argument: routing, existence, then a directory or a single file. */
  method ProcessPath(h: Host, w: World, cfg: Config, p: string) returns (events: seq<Event>)
    ensures events == PathTrace(h, w, cfg, p)
  {
    var i := IndexOfDir(BasePaths(cfg), p);
    if i > -1 {
      if w.pathExists(p) {
        var rule := cfg.dirs[i];
        var secret := SecretParam(h, p, rule);
        if w.isDirectory(p) {
          var files := JpgFiles(h, w.readdir(p));
          var s3Key;
          events, s3Key := ProcessDirectory(h, w, cfg, rule, secret, p, files);
          events := events + [Finished(s3Key)];
        } else {
          var err, s3BaseKey;
          events, err, s3BaseKey := ResizeAndUpload(h, w, cfg, rule, secret, p);
          events := events + [Finished(Some(s3BaseKey))];
        }
      } else {
        events := [Missing(p)];
      }
    } else {
      events := [NoRule(p)];
    }
  }

  /** The whole run: resolve the arguments against the home directory the
      environment names, then process them in order. */
  method RunBatch(h: Host, w: World, cfg: Config, env: map<string, string>, cwd: string, args: seq<string>)
    returns (trace: seq<Event>)
    ensures trace == BatchTrace(h, w, cfg, ResolveArgs(w, HomeDir(env, cwd), args))
  {
    var home := HomeDir(env, cwd);
    var paths := ResolveArgs(w, home, args);
    trace := [];
    var k := 0;
    while k < |paths|
      invariant 0 <= k <= |paths|
      invariant trace == BatchTrace(h, w, cfg, paths[..k])
    {
      BatchSnoc(h, w, cfg, paths, k);
      var events := ProcessPath(h, w, cfg, paths[k]);
      trace := trace + events;
      k := k + 1;
    }
    assert paths[..k] == paths;
  }
}

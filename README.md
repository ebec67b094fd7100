# s3-photo core, modelled in Dafny

s3-photo is a command-line uploader. It takes photo files and directories
from the command line. It finds the configured directory rule that governs
each path. It derives an S3 object key from the path, and uploads the
original and one resized copy per configured size. This project models the
deterministic part of `index.js` and proves its properties:

- **Rule routing** (`indexOfDir`): module `Routing`.
- **Slug normalisation** (`normalize`): module `Slug`, on the string
  operations of module `Text`.
- **The `~/` step of `resolvePath`, and the Node `path` functions the key
  uses**: module `Paths`.
- **Object-key derivation and the secret segment** (`resizeAndUpload`,
  `getSecret`, `hash`): module `Keys`.
- **The serial control flow of the run**: module `Batch`. It covers every
  argument, every `.jpg` of a directory, and every size of a file, walked by
  `async.eachSeries`.

Each loop of the source is a method with a loop. Each method is proved equal
to a function over the prefix of its list that it has walked:

- `Routing.IndexOfDir` against `Routing.Route`;
- `Batch.UploadSizes` against `Batch.SizeRun`;
- `Batch.ProcessDirectory` against `Batch.DirRun`;
- `Batch.RunBatch` against `Batch.BatchTrace`.

The step-wise reassignments of `s3BaseKey` and of `str` in `hash` are
methods proved equal to `Keys.BaseKey` and `Keys.HashInput`.

`async.eachSeries` is one generic function, `Batch.Series`, used for both the
sizes of a file and the files of a directory. A step that calls back with an
error ends the series, and its lemmas are proved once for any step.

The outside world is modelled as parameters:

- `Text.Host` carries `toLowerCase`, `unorm.nfkd` and the SHA-1 hex digest as
  uninterpreted functions;
- `Batch.World` answers `path.resolve`, `fs.exists`, `isDirectory`,
  `readdirSync`, whether an S3 upload succeeds, and whether ImageMagick
  produces a resized stream.

The result of a run is a trace of `Batch.Event`s: uploads attempted with
their outcome, paths skipped, and the key logged at the end of each
argument.

Where the code differs from what one might expect, the model follows the
code:

- `normalize` is not idempotent. `Slug.NotIdempotent` exhibits `a-.-b`.
- Routing takes the last matching base path in configuration order, not the
  longest one (`Routing.NotLongestPrefix`).
- Only straight quotes are removed; curly quotes stay.
- Upload errors are discarded by both upload callbacks. Only a resize error
  stops anything.
- The secret is hashed from the argument path `p`, not from each file path.
  So all files of a directory argument share it.
- The directory filter is `endsWith('jpg')`, without a dot, so `notjpg` and
  `x.JPG` both pass.
- When the join of `baseKey` and the slug is the bare `/`, the key keeps a
  leading slash. After the leading slash is stripped, the trailing one is
  added back (`Keys.DirKeyEnds` states exactly when that happens).
- When both `baseKey` and the slug are empty, `path.join` yields `.`, and the
  key becomes `./`.

## Model

| member | source | states |
|---|---|---|
| Routing.Route | index.js:20-28 | the result is -1 or the index of a base path that prefixes the path, and no later base path prefixes it |
| Routing.IndexOfDir | index.js:20-28 | the `forEach` loop that overwrites `index` on every match returns `Route` |
| Routing.NotLongestPrefix | index.js:20-28 | a shorter base path listed after a longer matching one takes the path |
| Paths.EnvValue | index.js:76 | definition: a variable counts only when it is set to a non-empty string, the only values `\|\|` does not skip; `Paths.FirstSetChoice` states what the chain picks |
| Paths.FirstSetChoice | index.js:76 | the `\|\|` chain yields the value of the first set variable, or the fallback when none is set |
| Paths.HomeDir | index.js:76 | definition: the `\|\|` chain over HOME, HOMEPATH and HOMEDIR with the working directory last; `Paths.HomeDirPrecedence` states its order |
| Paths.HomeDirPrecedence | index.js:76 | HOME beats HOMEPATH, which beats HOMEDIR, which beats the working directory |
| Paths.ExpandTilde | index.js:74-78 | with a home that does not start with `~`, an expanded path has no leading `~/` left to expand |
| Paths.ExpandTildeOnce | index.js:75-77 | with a home that does not start with `~`, expanding twice equals expanding once |
| Paths.Basename | index.js:152 | the basename holds no slash |
| Paths.Dirname | index.js:153 | definition: Node's posix `dirname`; `Paths.SplitJoined` and `Paths.DirnameOfEntry` state what it gives for a file path |
| Paths.SplitJoined | index.js:152-153 | dirname and basename of `dir + "/" + name` give `dir` and `name` back |
| Paths.DirnameOfEntry | index.js:153 | for any `dir`, the dirname of `dir + "/" + name` depends on `dir` alone: `dir`, or `//` for the root `/`, or `/` for the empty string |
| Paths.Join | index.js:155 | definition: `path.join` of two parts, joined by `/` with slash runs collapsed, `.` when empty; its properties are the next two rows |
| Paths.JoinCollapsed | index.js:155 | `path.join` leaves no doubled slash |
| Paths.JoinKeepsSegments | index.js:155 | the join is `.` for two empty parts; otherwise its segments are those of `a` followed by those of `b`, so a `/` separates them, and no character other than a slash is lost |
| Paths.Segments | index.js:155 | definition: the non-empty pieces of a path between its slashes, in order |
| Paths.SegmentsSplit | index.js:155 | where a slash separates two strings, their segments concatenate |
| Paths.CollapsedSegments | index.js:155 | collapsing runs of slashes keeps the segments |
| Text.IndexOf | index.js:154 | the first occurrence of the pattern, or -1 when it occurs nowhere |
| Text.RemoveFirst | index.js:154 | `replace` with a string pattern removes only the first occurrence, and leaves the string alone when there is none |
| Text.RemoveFirstPrefix | index.js:154 | when the directory starts with the base path, the relative part is the rest |
| Text.Filter | index.js:107-109 | the filter keeps exactly the listed names the test accepts |
| Text.Drop | index.js:34-40 | definition: a `/[class]/g` deletion; `Text.DropMembers` states what it keeps |
| Text.ReplaceRuns | index.js:36-39 | definition: a `/[class]+/g` replacement by one character; `Text.RunsChars` to `Text.RunsAbsent` state its properties |
| Text.Trim | index.js:174 | definition: `trim` as trimming both ends; `Text.TrimShape` states what it removes |
| Text.FilterConcat | index.js:107-109 | the filter keeps listing order |
| Text.AsciiLower | index.js:32 | ASCII lowercasing leaves no upper-case letter and changes only upper-case letters |
| Text.DropMembers | index.js:34-35 | a `/[class]/g` deletion leaves exactly the characters outside the class |
| Text.DropAbsent | index.js:34-35 | deleting a class the string does not hold changes nothing |
| Text.DropConcat | index.js:34-35 | deletion keeps order across concatenation |
| Text.DropAbsorbed | index.js:34-40 | deleting a class before a larger one changes nothing |
| Text.RunsChars | index.js:36 | each output character of a run replacement is the replacement or a non-run character of the input |
| Text.RunsCollapsed | index.js:36-39 | replacing `/[class]+/g` leaves no two class characters adjacent |
| Text.RunsKeepOthers | index.js:36-39 | run replacement changes only class characters: deleting a wider class from input and output agrees |
| Text.ReplaceRunsKeepsOthers | index.js:36-39 | the same, for the whole string |
| Text.RunsIsolated | index.js:36 | when no two class characters are adjacent, run replacement maps each one separately |
| Text.RunsPlain | index.js:36-39 | a stretch without class characters is copied unchanged |
| Text.RunsAbsent | index.js:39 | a string without class characters is its own run replacement |
| Text.NatString | index.js:174 | `toString` of a whole number is non-empty |
| Text.NatStringDigits | index.js:174 | `toString` of a whole number is its decimal digits, without a leading zero, read back as the number |
| Text.TrimStartShape | index.js:174 | trimming the start removes a whitespace prefix and stops at the first other character |
| Text.TrimEndShape | index.js:174 | trimming the end removes a whitespace suffix and stops at the last other character |
| Text.TrimShape | index.js:174 | `trim` yields a string that neither starts nor ends with whitespace, framed in the input by whitespace only |
| Slug.Normalize | index.js:30-43 | definition: lowercase, NFKD, then the seven replacements in source order; `Slug.NormalizeIsClean` and `Slug.NormalizeKeepsText` state what the slug holds |
| Slug.MatchEnd | index.js:37 | definition: the end of the longest match of `-+&+-+` at a position; `Slug.MatchShape` states what a match holds |
| Slug.AmpersandsFrom | index.js:37 | definition: the global replace of `-+&+-+` by `+`; `Slug.AmpersandsIdentity` to `Slug.AmpersandsKeepOthers` state its properties |
| Slug.MatchShape | index.js:37 | a match of `-+&+-+` starts with a dash, holds an ampersand and holds nothing but dashes and ampersands |
| Slug.AmpersandsIdentity | index.js:37 | without an ampersand the rule changes nothing |
| Slug.AmpersandsPlain | index.js:37 | a stretch without dashes is copied unchanged |
| Slug.AmpersandsKeepFree | index.js:37 | the rule adds no character other than `+` |
| Slug.AmpersandsKeepOthers | index.js:37 | the rule touches only dashes, ampersands and pluses |
| Slug.DropKeepsFree | index.js:34-40 | a deleting step keeps every class removed before it out, and removes its own |
| Slug.RunsKeepFree | index.js:36-39 | a run-replacing step keeps removed classes out and removes its run class |
| Slug.CleanThroughSpaces | index.js:31-36 | after the first three steps no combining mark, `?`, `!` or whitespace is left |
| Slug.CleanAfterSpaces | index.js:37-40 | the remaining steps keep those out and also remove quotes and periods |
| Slug.NormalizeIsClean | index.js:30-43 | a slug holds no combining mark U+0300 to U+036F, `?`, `!`, whitespace, straight quote or period, whatever lowercase and NFKD return |
| Slug.NormalizeKeepsText | index.js:30-43 | every character that no step names survives, in order |
| Slug.NormalizeAsciiIsLowercase | index.js:32 | for ASCII input under a faithful lowercase, a slug holds no upper-case letter |
| Slug.SpacesIsolated | index.js:36 | single whitespace characters each become one dash |
| Slug.ExampleSpaces | index.js:36 | the spaces of `rock - & - roll.` and of `tom's cafe` each become one dash |
| Slug.RockAndRollExample | index.js:30-43 | `Rock - & - Roll.` normalises to `rock+roll` |
| Slug.CafeExample | index.js:30-43 | `Tom's Café!` with a decomposed `é` normalises to `toms-cafe` |
| Slug.DotBetweenDashes | index.js:39-40 | `a-.-b` normalises to `a--b`: dashes collapse before the period is removed |
| Slug.DoubleDash | index.js:39 | `a--b` normalises to `a-b` |
| Slug.NotIdempotent | index.js:30-43 | normalising `a-.-b` twice differs from normalising it once |
| Keys.TrimDigits | index.js:174 | a digit string is its own trim |
| Keys.SizeIdPair | index.js:173-175 | numeric width and height give `W + "x" + H` |
| Keys.SizeIdDecodes | index.js:173-175 | distinct numeric sizes give distinct size segments |
| Keys.SizeId | index.js:173-175 | definition: the trimmed `toString` of each entry, joined by `x`; `Keys.SizeIdPair` and `Keys.SizeIdDecodes` state its properties |
| Keys.ExampleSizeId | index.js:173-175 | the size `[200, 200]` gives `200x200` |
| Keys.Hash | index.js:228-234 | `hash` digests the string with the salt appended when the salt is non-empty |
| Keys.HashInputSeparatesSalts | index.js:228-231 | for one path, different salts give different hashed strings |
| Keys.GetSecret | index.js:213-226 | definition: the digest of the salted argument path for a secret rule, `false` otherwise; `Keys.SecretIff` states it |
| Keys.SecretParam | index.js:98-102 | definition: `params.secret`, set only when `getSecret` returns a truthy value; `Keys.SecretIff` states it |
| Keys.SecretIff | index.js:213-234 | with forty-character digests, `params.secret` is set iff the rule is secret; it is `sha1(p + salt)`, or `sha1(p)` for an empty salt |
| Keys.JoinedKey | index.js:153-155 | definition: `path.join(baseKey, normalize(dir.replace(basePath, '')))` |
| Keys.SlashFramed | index.js:157-163 | definition: one leading slash stripped, then a trailing slash ensured; `Keys.FrameSlashes` is the in-place form |
| Keys.DirKey | index.js:152-163 | definition: the framed join; `Keys.DirKeyEnds`, `Keys.DirKeyCollapsed` and `Keys.DirKeyContent` state its shape |
| Keys.BaseKey | index.js:151-167 | definition: the directory key and the optional `<secret>/`; `Keys.DeriveBaseKey` is the step-wise form |
| Keys.FrameSlashes | index.js:157-163 | after the two fix-ups the key equals the framed join and ends with `/` |
| Keys.DeriveBaseKey | index.js:151-167 | the step-wise assembly of `s3BaseKey` equals `BaseKey` |
| Keys.DirKeyEnds | index.js:155-163 | the directory key ends with `/`, and starts with `/` exactly when the join is the bare `/` |
| Keys.DirKeyCollapsed | index.js:155-163 | the directory key holds no doubled slash |
| Keys.FramedSegments | index.js:157-163 | the slash fix-ups add or remove no segment |
| Keys.DirKeyContent | index.js:154-163 | the directory key's segments are the base key's followed by the slug's, so it reads `<baseKey>/<slug>/`; it is `./` when both are empty; no character other than a slash is lost |
| Keys.BaseKeySecret | index.js:165-167 | with a secret the base key is the directory key and `<secret>/`; without one it is the directory key alone |
| Keys.BaseKeyEnds | index.js:161-167 | the base key always ends with `/` |
| Keys.OriginalKey | index.js:169 | definition: the base key followed by the basename; `Keys.OriginalKeyShape` states it |
| Keys.SizeKey | index.js:176 | definition: `<base>sizes/<size>/<basename>`; `Keys.SizeKeyShape` to `Keys.SizeKeysDistinct` state its properties |
| Keys.OriginalKeyShape | index.js:169 | the original key is the base key followed by the raw basename |
| Keys.SizeKeyShape | index.js:176 | a size key starts with the base key and ends with `/` and the basename |
| Keys.SizeKeyNotOriginal | index.js:169-176 | no size key equals the original key |
| Keys.SizeKeySameId | index.js:176 | equal size keys for one file have equal size segments |
| Keys.SizeKeysDistinct | index.js:173-176 | two numeric sizes share a key only when they are the same size |
| Keys.ExampleSlug | index.js:30-43 | `/2023/trip` is its own slug |
| Keys.ExampleJoin | index.js:155 | `photos//2023/trip` collapses to `photos/2023/trip` |
| Keys.ExampleJoined | index.js:153-155 | rule `/pics` to `photos` on `/pics/2023/trip` joins to `photos/2023/trip` |
| Keys.ExampleKeys | index.js:151-176 | for `/pics/2023/trip/a.jpg`, the original key is `photos/2023/trip/a.jpg` and the 200 by 200 key is `photos/2023/trip/sizes/200x200/a.jpg` |
| Batch.BasePaths | index.js:84-86 | definition: the `map` of the rules to their `basePath`s |
| Batch.ResolveArgs | index.js:74-81 | definition: the `map` of `resolvePath` over the arguments, tilde expansion then `path.resolve` |
| Batch.Series | index.js:113-124 | definition: `async.eachSeries` over the items, ended by the first step that calls back with an error; the next three rows state its properties |
| Batch.FirstStop | index.js:113-124 | the first failing step: every earlier step succeeds and it fails |
| Batch.SeriesStops | index.js:119 | once a step has failed, the remaining items change nothing |
| Batch.SeriesShape | index.js:113-124 | an `eachSeries` runs every step up to and including the first failing one, in order, and none after it |
| Batch.SeriesBlind | index.js:183-186 | steps that differ only in upload outcomes give series that differ only in upload outcomes |
| Batch.SizeUpload | index.js:173-190 | definition: one size, resized and then uploaded under its size key, the upload error dropped |
| Batch.SizeRun | index.js:172-193 | definition: the `eachSeries` over `config.sizes`; `Batch.SizeRunFails` to `Batch.SizeRunCompletes` state its properties |
| Batch.FirstFailure | index.js:178-189 | the first size ImageMagick fails on: all earlier sizes resize |
| Batch.SizedUploads | index.js:176-183 | one upload per size, in configuration order |
| Batch.AllSizesUploaded | index.js:172-186 | when every size resizes, the sizes' events are exactly their uploads in order |
| Batch.SizeRunFails | index.js:187-192 | the sizes of a file end with an error exactly when some resize fails |
| Batch.SizeRunFailsAt | index.js:172-192 | the sizes before the first failing one are uploaded in order, that size is reported, and no later size is tried |
| Batch.SizeRunCompletes | index.js:172-192 | when every resize succeeds, every size is uploaded in order |
| Batch.ProcessFile | index.js:169-193 | definition: the original upload, then `SizeRun`; `Batch.ProcessFileFails` and `Batch.ProcessFileShape` state its properties |
| Batch.ProcessFileFails | index.js:169-193 | a file fails exactly when some resize fails, whatever its uploads report |
| Batch.ProcessFileShape | index.js:169-193 | the original is uploaded first, then the sizes in order up to the first resize failure |
| Batch.JpgFiles | index.js:107-109 | definition: the listing filter; `Batch.JpgFilesMembers` and `Batch.JpgFilesOrder` state its properties |
| Batch.JpgFilesMembers | index.js:107-109 | a listed name is processed exactly when its lowercase form ends with `jpg` |
| Batch.JpgFilesOrder | index.js:107-109 | the filter keeps listing order |
| Batch.FileStep | index.js:114-120 | definition: one file of a directory, keyed by its base key, its error ending the directory |
| Batch.DirRun | index.js:113-124 | definition: the `eachSeries` over a directory's files; `Batch.DirRunStops` to `Batch.DirRunCompletes` state its properties |
| Batch.FirstFailedFile | index.js:113-120 | the first file a resize fails on: no earlier file has a failing resize |
| Batch.DirRunStops | index.js:113-124 | a directory ends early exactly when a resize fails on one of its files |
| Batch.DirRunFailsAt | index.js:113-124 | files run in listing order up to and including the first failing one, none after it, and the logged key is that file's base key |
| Batch.DirRunCompletes | index.js:111-124 | with no failure every file runs in order; the logged key is the last file's, or undefined for no file |
| Batch.DirectoryShareBase | index.js:151-167 | all files of one directory argument get the same base key, secret included, for every directory path, the root `/` included |
| Batch.PathTrace | index.js:89-141 | definition: one argument, routed, checked for existence, then processed as a directory or a file |
| Batch.BatchTrace | index.js:88-144 | definition: the outer `eachSeries` over the arguments, each one's trace after the last; `Batch.BatchConcat` and `Batch.NextArgumentRuns` state its properties |
| Batch.BatchConcat | index.js:88-144 | the trace of a list of arguments is the traces of its parts, concatenated |
| Batch.SkipUnrouted | index.js:138-141 | a path no rule governs is logged and skipped, and the next argument runs |
| Batch.NextArgumentRuns | index.js:121-124 | whatever happens inside an argument, the next argument runs |
| Batch.PathTraceBlind | index.js:169-186 | one argument's uploads are the same, in the same order, whatever S3 answers |
| Batch.UploadOutcomesIgnored | index.js:169-186 | the whole run attempts the same uploads, in the same order, whatever S3 answers |
| Batch.UploadSizes | index.js:172-193 | the size loop produces exactly `SizeRun` |
| Batch.ResizeAndUpload | index.js:151-195 | the file's events and error are exactly `ProcessFile`, and its base key is `BaseKey` |
| Batch.ProcessDirectory | index.js:107-124 | the directory loop produces exactly `DirRun`'s events and logged key |
| Batch.ProcessPath | index.js:89-141 | one argument produces exactly `PathTrace` |
| Batch.RunBatch | index.js:74-144 | the whole run produces exactly `BatchTrace` of the arguments resolved against `HomeDir` of the environment and working directory |

## Left out

- CLI parsing (minimist), YAML loading, `die`/`process.exit` and the check
  that `config.s3` exists are startup I/O. The configuration and the
  environment are inputs.
- The S3 client (`upload`, index.js:197-211) and the `gm` resize are foreign
  calls. Only their success or failure is modelled, as `World.uploadOk` and
  `World.resizeOk`. Resize geometry and `config.quality` are not modelled.
- `fs.exists`, `lstatSync` and `readdirSync` are oracles in `World`.
  `path.resolve` is the oracle `World.resolve`: only its `~/` step is
  modelled.
- Console and `chalk` output and the `fileIndex` progress counter have no
  effect on keys or uploads. Three log lines are kept in the trace:
  `NoRule` (`console.error`, index.js:139), `Missing` (`console.error`,
  index.js:134), and `Finished`, the key printed at the end of an argument
  (index.js:122 and index.js:128). The progress and "Upload complete" lines
  are not modelled.
- SHA-1, the NFKD tables and full-Unicode `toLowerCase` are library code,
  kept uninterpreted in `Text.Host`. `AsciiFaithful` and `DigestShaped` state
  the only facts about them that proofs use.
- The `parts` value computed in `getSecret` (index.js:214-219) is never used.
  It is not modelled.
- Strings are sequences of code points, not UTF-16 code units. `\s` and
  `trim` use the same whitespace class.
- `Keys.DimString`: `toString` is modelled for whole numbers and strings,
  not for fractions, negative numbers or numbers of 10^21 and above.
- `Paths.Join`: dot segments (`.` and `..`) are assumed absent and are not
  resolved.
- `Paths.Dirname` follows Node's posix `dirname` for the forms that key
  derivation meets. Windows paths are not modelled.
- `Batch.DirectoryShareBase` requires what `readdirSync` guarantees and the
  model does not encode: directory entries are non-empty names without `/`.
- A resize error is never logged or reported by the source. It only ends
  the size series (index.js:188, index.js:191-192), ends the directory
  (index.js:119), and is then dropped (index.js:121-123 and
  index.js:127-130). `Batch.ResizeFailed` is a marker the model adds to the
  trace, so that the failing file and size can be stated. The error object
  itself is not modelled.

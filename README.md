# rattler_archive in Dafny

A model of the decision logic of `rattler_archive`, the archive-extraction
crate of rattler. It covers these parts:

- **The format catalogue.** A case-insensitive suffix classifier from a
  file name, a path or a URL to one of eight archive formats. It comes with
  `name`, `is_tar_based`, `extensions`, and the crate-root predicates
  `is_archive` and `is_tarball`.
- **The error taxonomy.** The variants of `ArchiveError`, their helper
  constructors and their display texts.
- **The progress reader.** A `Read` decorator that counts bytes and reports
  the running total. Progress reporters are modelled by the calls they
  receive.
- **The extractor.** The builder, format resolution, dispatch to the tar,
  ZIP and 7z paths, how each failure becomes an error, and the progress
  lifecycle. It also covers `move_extracted_dir`, which strips a lone root
  directory and moves entries into the destination one rename at a time.
- **The asynchronous façade.** Builder forwarding, `extract` on a worker,
  and the URL format check of `extract_from_url`.

Every filesystem and codec answer the extractor depends on is a parameter,
an `Extraction.Environment`:

- creating the destination;
- the archive's size;
- opening the archive;
- the zstd decoder and the ZIP central directory;
- the temporary directory;
- what the unpacker wrote, and whether it failed;
- the two directory listings;
- the file type of a lone entry;
- which renames fail.

The destination directory is a `FileSystem.Disk` object. Its contents are a
tree of `File`/`Dir` entries, which the extractor's methods update. Each
method is proved against a ghost predicate (`ExtractBehaviour`,
`FamilyBehaviour`, `MoveBehaviour`, `MovedInto`). The lemmas then prove the
crate's promises about those predicates.

The modules are:

| module | file | models |
|---|---|---|
| `Wrappers` | wrappers.dfy | `Option`, `Result`, and `Outcome` (a `Result<()>`) |
| `Paths` | paths.dfy | the Unix `Path::file_name`, `OsStr::to_str` and `Path::display` the crate relies on |
| `Format` | format.dfy | `format.rs` |
| `Archive` | archive.dfy | `lib.rs` |
| `Errors` | errors.dfy | `error.rs` |
| `Progress` | progress.dfy | `progress.rs` |
| `FileSystem` | filesystem.dfy | the destination directory and the `fs_err` calls on it |
| `Extraction` | extractor.dfy | `extractor.rs` |
| `Async` | async.dfy | `async.rs` |

Two error variants are declared but never produced by extraction:

- `RootDirectoryStripping` is documented as the "Error stripping root
  directory" (crates/rattler_archive/src/error.rs:44-46). A failed rename
  while stripping the root directory nevertheless surfaces as `Io`
  (crates/rattler_archive/src/extractor.rs:250). No extraction path
  produces `RootDirectoryStripping`; only the public helper
  `root_directory_stripping` (crates/rattler_archive/src/error.rs:88-93)
  builds it, and nothing in the crate calls that helper.
- `TempDirCreation` is documented as the "Error creating temporary
  directory" (crates/rattler_archive/src/error.rs:32-34). A failed temporary
  directory nevertheless surfaces as `Io`
  (crates/rattler_archive/src/extractor.rs:167), and nothing in the crate
  builds `TempDirCreation`.

A failed worker join in the asynchronous `extract` becomes an `Io` error
whose message is the join error's text
(crates/rattler_archive/src/async.rs:96).

The errors reach users as text: a command-line tool or a log shows
`Display` and nothing else. The crate does not promise that this text is
unambiguous. `Errors.PrefixOfDisplay` and `Errors.DisplayIdentifiesError`
show that its message table has that property anyway: the fixed prefix
names the variant, and no two different single-field errors print alike.
So a caller holding only the message can tell which failure occurred and
recover its field.

## Model

| member | source | states |
|---|---|---|
| Format.DetectFromFilename | crates/rattler_archive/src/format.rs:30-68 | the suffix if-chain on the lower-cased name, tested from the most to the least specific group; what it computes is stated by `DetectIsFirstMatch`, `DetectExactly` and `DetectNoneExactly` |
| Format.Extensions | crates/rattler_archive/src/format.rs:112-124 | every format has at least one extension, and each is a dot followed by at least two characters |
| Format.Name | crates/rattler_archive/src/format.rs:89-101 | each name has at least two characters and no lower-case ASCII letter |
| Format.IsTarBased | crates/rattler_archive/src/format.rs:104-109 | a format is tar-based exactly when its primary extension starts with `.tar` |
| Format.TarPrefixOfPrimaryExtension | crates/rattler_archive/src/format.rs:104-124 | the primary extension starts with `.tar` for the six tar variants and for no other format |
| Format.DetectFromPath | crates/rattler_archive/src/format.rs:71-76 | a path is classified only when it has a file name that is valid UTF-8, and then as that file name's text is |
| Format.DetectFromUrl | crates/rattler_archive/src/format.rs:80-86 | a URL is classified only when its path has a file name, and then as that file name's text is |
| Format.Serialization | crates/rattler_archive/src/async.rs:112-117 | the printed URL starts with scheme, `://`, host and path, and ends with `#` and the fragment when there is one |
| Format.DetectExactly | crates/rattler_archive/src/format.rs:30-68 | a name is classified as `f` exactly when its lower-cased form ends with one of `f.extensions()` (both directions) |
| Format.DetectNoneExactly | crates/rattler_archive/src/format.rs:30-68 | detection gives None exactly when the lower-cased name ends with no listed extension |
| Format.DetectIsFirstMatch | crates/rattler_archive/src/format.rs:33-67 | detection returns the first format, in the order TarGz, TarBz2, TarXz, TarLzma, TarZst, Tar, Zip, SevenZip, one of whose extensions ends the lower-cased name |
| Format.FirstMatchFound | crates/rattler_archive/src/format.rs:33-67 | the first-match reference returns a format of the order that does match, and finds one whenever some format matches |
| Format.EveryFormatIsTested | crates/rattler_archive/src/format.rs:33-67 | every format is in the detection order |
| Format.AtMostOneFormat | crates/rattler_archive/src/format.rs:112-124 | no name ends with extensions of two different formats, so the test order never changes the answer |
| Format.ExtensionsSuffixFree | crates/rattler_archive/src/format.rs:112-124 | no extension of one format is a suffix of an extension of another |
| Format.DetectAppendedExtension | crates/rattler_archive/src/format.rs:30-68 | any name ending, in any case, with an extension of `f` is detected as `f`; so `.tar.gz`, `.tgz` and `.taz` names are TarGz and never Tar |
| Format.DetectIgnoresCase | crates/rattler_archive/src/format.rs:31 | a name, its lower-case form and its upper-case form are classified alike |
| Format.ToLowerOfCase | crates/rattler_archive/src/format.rs:31 | lower-casing is idempotent and undoes upper-casing |
| Format.ToLowerConcat | crates/rattler_archive/src/format.rs:31 | lower-casing distributes over concatenation |
| Format.ExtensionsAreLowerCase | crates/rattler_archive/src/format.rs:112-124 | every listed extension is already lower case |
| Format.DetectNeedsDot | crates/rattler_archive/src/format.rs:30-68 | a name without a dot is never classified |
| Format.DetectByEnding | crates/rattler_archive/src/format.rs:30-68 | a name whose lower-cased last two characters end no extension is not classified |
| Format.NameIsPrimaryExtension | crates/rattler_archive/src/format.rs:89-101 | a format's name, lower-cased and with a dot in front, is its first extension |
| Format.DetectNamedAfterFormat | crates/rattler_archive/src/format.rs:89-124 | a file named `<anything>.<name()>` is detected as that format |
| Format.NameInjective | crates/rattler_archive/src/format.rs:89-101 | distinct formats have distinct names |
| Format.TarBasedExactly | crates/rattler_archive/src/format.rs:104-109 | `is_tar_based` holds for every format except Zip and SevenZip, and exactly for the formats all of whose extensions begin `.t` |
| Format.DetectFromPathUsesFileName | crates/rattler_archive/src/format.rs:71-76 | `dir/name` and `name` are detected as `name` is, whatever `dir` holds |
| Format.DetectFromPathNeedsUtf8FileName | crates/rattler_archive/src/format.rs:71-76 | a path with no file name, or with a file name that is not UTF-8, is not classified |
| Format.DetectFromUrlIgnoresQuery | crates/rattler_archive/src/format.rs:80-86 | the query and fragment of a URL do not affect detection |
| Format.UrlPathExample | crates/rattler_archive/src/format.rs:208-213 | a URL path `dir/stem.ext` with `ext` an extension of `f` is detected as `f`, for any `dir` and any slash-free `stem`, the empty one (`dir/.tar.gz`) included |
| Format.RootedPathExample | crates/rattler_archive/src/format.rs:208-213 | a path `/stem.ext` with `ext` an extension of `f` is detected as `f`, for any slash-free `stem`, the empty one included |
| Format.DetectFromUrlExample | crates/rattler_archive/src/format.rs:215-219 | `https://example.com/file.zip?query=param` is Zip |
| Format.DetectUpperCaseExample | crates/rattler_archive/src/format.rs:189-191 | `FILE.TAR.GZ` is TarGz |
| Format.DetectMixedCaseExample | crates/rattler_archive/src/format.rs:192-195 | `File.Zip` is Zip |
| Format.DetectUnknownExample | crates/rattler_archive/src/format.rs:182 | `file.txt` is not classified |
| Paths.FileName | crates/rattler_archive/src/format.rs:73 | a file name is non-empty, contains no separator, and is neither `.` nor `..` |
| Paths.ToStr | crates/rattler_archive/src/format.rs:74 | text is produced exactly when every unit is valid UTF-8, and then it has those characters in order |
| Paths.Display | crates/rattler_archive/src/extractor.rs:99 | the displayed text has one character per unit, and each valid character is shown as itself |
| Paths.DisplayOfUtf8 | crates/rattler_archive/src/extractor.rs:98-99 | for a path that is valid UTF-8, `to_str` gives exactly the text that `display` shows |
| Paths.FileNameOfJoin | crates/rattler_archive/src/format.rs:73 | the file name of `dir/name` is `name` when `name` is a normal component |
| Paths.FileNameOfName | crates/rattler_archive/src/format.rs:73 | a normal component is its own file name |
| Paths.FileNameIgnoresTrailingSeparator | crates/rattler_archive/src/format.rs:73 | a trailing `/` does not change the file name |
| Paths.FileNameIgnoresTrailingDot | crates/rattler_archive/src/format.rs:73 | a trailing `/.` does not change the file name |
| Paths.LastSegmentOfJoin | crates/rattler_archive/src/format.rs:73 | the last segment of `dir/name` is `name` when `name` has no separator |
| Paths.ToStrFromStr | crates/rattler_archive/src/format.rs:74 | a path made of text converts back to that text |
| Archive.IsArchive | crates/rattler_archive/src/lib.rs:79-81 | the definition: detection finds a format; characterised by `IsArchiveExactly` |
| Archive.IsTarball | crates/rattler_archive/src/lib.rs:84-96 | the definition: the detected format is one of the six tar variants, listed on their own; characterised by `IsTarballExactly` |
| Archive.IsArchiveExactly | crates/rattler_archive/src/lib.rs:79-81 | `is_archive` holds exactly when the lower-cased name ends with some format's extension |
| Archive.IsTarballExactly | crates/rattler_archive/src/lib.rs:84-96 | `is_tarball` holds exactly when the name is an archive whose detected format is tar-based |
| Archive.IsTarballImpliesIsArchive | crates/rattler_archive/src/lib.rs:79-96 | every tarball is an archive; Zip, SevenZip and unrecognised names are not tarballs |
| Archive.PredicatesIgnoreCase | crates/rattler_archive/src/lib.rs:79-96 | both predicates give the same answer for a name and for its lower- and upper-case forms |
| Archive.PredicatesOfExtension | crates/rattler_archive/src/lib.rs:79-96 | a name ending with an extension of `f` is an archive, and is a tarball exactly when `f` is tar-based |
| Errors.Display | crates/rattler_archive/src/error.rs:12-42 | the display text of each variant as its `#[error]` attribute writes it; `DisplayIsPrefixAndField` states it as prefix plus field |
| Errors.FromIo | crates/rattler_archive/src/error.rs:12-13 | an I/O error becomes `Io` holding it, displayed as `I/O error: ` and its text |
| Errors.UnsupportedFormatError | crates/rattler_archive/src/error.rs:51-55 | builds `UnsupportedFormat` with the given file name, displayed after `Unsupported archive format for file: ` |
| Errors.TarExtractionError | crates/rattler_archive/src/error.rs:58-62 | builds `TarExtraction` with the given message and its display text |
| Errors.ZipExtractionError | crates/rattler_archive/src/error.rs:65-69 | builds `ZipExtraction` with the given message and its display text |
| Errors.SevenZipExtractionError | crates/rattler_archive/src/error.rs:73-77 | builds `SevenZipExtraction` with the given message and its display text |
| Errors.FormatDetectionError | crates/rattler_archive/src/error.rs:80-85 | builds `FormatDetection` with context then reason, in that order, and its display text |
| Errors.RootDirectoryStrippingError | crates/rattler_archive/src/error.rs:88-93 | builds `RootDirectoryStripping` with the path and reason, and its display text |
| Errors.DisplayIsPrefixAndField | crates/rattler_archive/src/error.rs:12-42 | each single-field error displays as its fixed prefix followed by its field |
| Errors.PrefixOfDisplay | crates/rattler_archive/src/error.rs:12-42 | the prefix of a single-field error can be read back from its displayed text |
| Errors.DisplayIdentifiesError | crates/rattler_archive/src/error.rs:12-42 | two single-field errors with the same display text are the same error |
| Progress.Reporter.OnStart | crates/rattler_archive/src/progress.rs:10 | a reporter takes note of the start call; the silent reporter keeps nothing |
| Progress.Reporter.OnProgress | crates/rattler_archive/src/progress.rs:13 | a reporter takes note of the progress call; the silent reporter keeps nothing |
| Progress.Reporter.OnFinish | crates/rattler_archive/src/progress.rs:16 | a reporter takes note of the finish call; the silent reporter keeps nothing |
| Progress.Reporter.NoProgress | crates/rattler_archive/src/progress.rs:20-27 | `NoProgressReporter` is silent: none of its callbacks has an effect |
| Progress.Reporter.Kept | crates/rattler_archive/src/progress.rs:23-27 | the silent reporter keeps no call, any other reporter keeps every call |
| Progress.RunningTotals | crates/rattler_archive/src/progress.rs:96-101 | there is one reported total per successful read, and the last is the sum of all reads |
| Progress.RunningTotalIsPrefixSum | crates/rattler_archive/src/progress.rs:96-101 | the total reported after a read is the sum of the counts of that read and all earlier ones |
| Progress.RunningTotalsNonDecreasing | crates/rattler_archive/src/progress.rs:96-101 | the totals passed to `on_progress` never decrease |
| Progress.SumOfAppend | crates/rattler_archive/src/progress.rs:98 | one more read of n bytes adds n to the sum and appends the new sum to the totals |
| Progress.KeptOfAppend | crates/rattler_archive/src/progress.rs:20-27 | what a reporter keeps of two batches of calls is what it keeps of each, in order |
| Progress.ProgressReader.constructor | crates/rattler_archive/src/progress.rs:81-87 | a new reader has read and reported nothing |
| Progress.ProgressReader.BytesRead | crates/rattler_archive/src/progress.rs:90-92 | `bytes_read` is the sum of all successful read counts and the last total reported |
| Progress.ProgressReader.Read | crates/rattler_archive/src/progress.rs:96-101 | returns the inner result; a success of n bytes adds n to `bytes_read` and reports the new total exactly once, even when n is 0; a failure changes nothing and reports nothing; the reporter's log stays the running totals |
| Progress.ProgressReader.Seek | crates/rattler_archive/src/progress.rs:105-107 | returns the inner seek's result and does not modify the reader |
| Progress.ReportedTotalsBounded | crates/rattler_archive/src/progress.rs:90-101 | every total reported so far is at most `bytes_read` |
| Progress.ReadExample | crates/rattler_archive/src/progress.rs:96-101 | over a recording reporter, reads of 3 bytes, an error and 4 bytes report exactly 3 then 7, and `bytes_read` is 7 |
| Extraction.NewBuilder | crates/rattler_archive/src/extractor.rs:22-28 | defaults: strip the root directory, no format, a fresh silent reporter |
| Extraction.WithStripRootDir | crates/rattler_archive/src/extractor.rs:33-36 | sets `strip_root_dir` and keeps the other fields |
| Extraction.WithProgressReporter | crates/rattler_archive/src/extractor.rs:39-45 | replaces the reporter and keeps `strip_root_dir` and `format` |
| Extraction.WithFormat | crates/rattler_archive/src/extractor.rs:48-51 | sets the format and keeps the other fields |
| Extraction.Build | crates/rattler_archive/src/extractor.rs:54-60 | the extractor has the builder's three fields unchanged |
| Extraction.SettersCommute | crates/rattler_archive/src/extractor.rs:33-51 | setters of different fields commute, and a second setting of a field replaces the first |
| Extraction.BuilderPatternExample | crates/rattler_archive/src/extractor.rs:323-331 | from the defaults, turning stripping off and choosing TarGz gives exactly those settings |
| Extraction.ResolveFormat | crates/rattler_archive/src/extractor.rs:95-101 | an explicit format wins whatever the path; otherwise `detect_from_path` decides; an unrecognised path is `UnsupportedFormat` holding the displayed path |
| Extraction.RouteOf | crates/rattler_archive/src/extractor.rs:111-130 | the tar route is taken exactly for tar-based formats; Zip goes to the ZIP path and SevenZip to the 7z path |
| Extraction.DispatchTable | crates/rattler_archive/src/extractor.rs:111-130 | every route is reachable, and TarXz and TarLzma are the only formats that share one |
| Extraction.ContainerError | crates/rattler_archive/src/extractor.rs:168-221 | an unpack failure becomes the error variant of its own family and no other, carries the failure's message, and displays as that family's `Failed to extract … archive: ` text |
| Extraction.Preparation | crates/rattler_archive/src/extractor.rs:140-187 | preparation passes exactly when the archive opens, the zstd decoder starts on the zstd route and the ZIP directory reads on the ZIP route; an open failure is `Io`; a failure is `Io`, or `ZipExtraction` for the ZIP directory |
| Extraction.FinishMessage | crates/rattler_archive/src/extractor.rs:179-224 | every family's finish message starts with `Extracted ` |
| Extraction.Source | crates/rattler_archive/src/extractor.rs:237-244 | the directory moved from is the scratch directory itself, or the children of one of its entries; with other than one entry it is the scratch directory |
| Extraction.ExtractCalls | crates/rattler_archive/src/extractor.rs:107-109 | `extract` never calls `on_progress`; it makes at most two calls; `on_start` with the archive size comes first; `on_finish` comes second and only on success |
| FileSystem.Disk.CreateDirAll | crates/rattler_archive/src/extractor.rs:104 | a failure is `Io` and changes nothing; a success leaves an existing destination as it was and makes a missing one empty |
| FileSystem.Disk.WriteAll | crates/rattler_archive/src/extractor.rs:174-176 | what an unpacker writes straight into the destination replaces the top-level entries of the same names |
| FileSystem.Disk.Rename | crates/rattler_archive/src/extractor.rs:249-250 | a rename puts the entry under its name in the destination and changes nothing else |
| Extraction.MoveAll | crates/rattler_archive/src/extractor.rs:247-251 | the rename loop satisfies `MovedInto`: in an unspecified order, each entry is renamed into the destination under its own name, stopping at the first failing rename with its `Io` error |
| Extraction.MoveExtractedDir | crates/rattler_archive/src/extractor.rs:229-254 | satisfies `MoveBehaviour`: listing failure gives `Io`; an empty scratch directory gives `EmptyArchive` and moves nothing; a lone directory's children are moved; otherwise every scratch entry is moved |
| Extraction.Place | crates/rattler_archive/src/extractor.rs:165-177 | without stripping, the unpacker writes straight into the destination; with stripping, a temporary directory is made, unpacked into, then moved from |
| Extraction.ExtractTar | crates/rattler_archive/src/extractor.rs:134-181 | satisfies `FamilyBehaviour` for the tar route (open failure and zstd decoder failure give `Io`, unpack failure gives `TarExtraction`), and calls `on_finish("Extracted tar archive")` only on success |
| Extraction.ExtractZip | crates/rattler_archive/src/extractor.rs:184-205 | satisfies `FamilyBehaviour` for the ZIP route (open failure gives `Io`, container or extract failure gives `ZipExtraction`), and calls `on_finish("Extracted ZIP archive")` only on success |
| Extraction.ExtractSevenZip | crates/rattler_archive/src/extractor.rs:209-226 | satisfies `FamilyBehaviour` for the 7z route (open failure gives `Io`, decompress failure gives `SevenZipExtraction`), and calls `on_finish("Extracted 7z archive")` only on success |
| Extraction.Extract | crates/rattler_archive/src/extractor.rs:93-131 | satisfies `ExtractBehaviour`: resolve the format, then create the destination, then call `on_start`, then dispatch; the reporter receives exactly `ExtractCalls` |
| Extraction.Dispatch | crates/rattler_archive/src/extractor.rs:111-130 | each format goes to its family with its compression, so `FamilyBehaviour` of the format's route holds and the reporter sees only that family's finish call |
| Extraction.MoveSucceedsExactlyWithoutFaults | crates/rattler_archive/src/extractor.rs:247-251 | a move succeeds exactly when no entry's rename fails; it then puts every source entry in the destination; otherwise it fails with the `Io` error of a failing rename |
| Extraction.MoveOnlyAddsSourceEntries | crates/rattler_archive/src/extractor.rs:247-251 | whatever the outcome, destination entries without a namesake are kept, only source entries are added, and nothing is rolled back |
| Extraction.EmptyArchiveRejected | crates/rattler_archive/src/extractor.rs:232-235 | an empty scratch directory gives `EmptyArchive` and leaves the destination as it was |
| Extraction.SourceOfSingleRoot | crates/rattler_archive/src/extractor.rs:238-240 | when the scratch directory holds only a directory, that directory's children are what is moved |
| Extraction.SourceOfOthers | crates/rattler_archive/src/extractor.rs:241-244 | several entries, or a lone file, are moved as they are |
| Extraction.SingleRootIsStripped | crates/rattler_archive/src/extractor.rs:229-254 | with no failure, a lone root directory's children land directly in the destination |
| Extraction.MoveWithoutFaults | crates/rattler_archive/src/extractor.rs:229-254 | once the listings succeed and no rename of a source entry fails, the move succeeds and the destination gains the whole source |
| Extraction.SingleFileIsMoved | crates/rattler_archive/src/extractor.rs:229-254 | with no failure, a lone file lands in the destination under its own name |
| Extraction.NoStripWritesIntoDestination | crates/rattler_archive/src/extractor.rs:173-177 | without stripping, what the unpacker wrote stays in the destination even when it fails, and the family's error carries the message |
| Extraction.UnsupportedFormatChangesNothing | crates/rattler_archive/src/extractor.rs:95-101 | with no format given and an unrecognised path, the result is `UnsupportedFormat` of the displayed path; nothing is created and nothing is reported |
| Extraction.SuccessfulExtraction | crates/rattler_archive/src/extractor.rs:93-131 | a success means the format resolved, the destination exists, and the reporter saw `on_start(size)` then `on_finish` with the family's message |
| Extraction.FailedExtractionNeverFinishes | crates/rattler_archive/src/extractor.rs:107-131 | a failure after the destination exists is reported by `on_start` alone |
| Extraction.TestArchiveIsTarGz | crates/rattler_archive/src/extractor.rs:276 | `<dir>/test.tar.gz` resolves to TarGz |
| Extraction.TarGzExample | crates/rattler_archive/src/extractor.rs:295-307 | a default extractor given `test.tar.gz` holding `test.txt` = "hello" leaves exactly that file in an empty destination |
| Extraction.ExtractTarGzExample | crates/rattler_archive/src/extractor.rs:295-307 | followed through `Extract` in the model with a default extractor and a new `Disk`, the scenario of the crate's tar.gz test ends in `Pass` and leaves exactly `test.txt` = "hello"; the silent reporter keeps nothing |
| Async.NewBuilder | crates/rattler_archive/src/async.rs:19-23 | the defaults of the extractor builder |
| Async.WithStripRootDir | crates/rattler_archive/src/async.rs:28-31 | forwards to the inner builder's setter |
| Async.WithProgressReporter | crates/rattler_archive/src/async.rs:34-41 | forwards to the inner builder's setter |
| Async.WithFormat | crates/rattler_archive/src/async.rs:44-47 | forwards to the inner builder's setter |
| Async.Build | crates/rattler_archive/src/async.rs:50-54 | wraps the extractor the inner builder builds |
| Async.BuildersAgree | crates/rattler_archive/src/async.rs:26-55 | configuring the asynchronous builder then building gives the extractor that configuring the inner builder gives |
| Async.Joined | crates/rattler_archive/src/async.rs:95-96 | the result passes exactly when the join and the worker both succeed; without a join failure it is the worker's result; a join failure is an `Io` error displayed as `I/O error: ` and the join error's text |
| Async.Extract | crates/rattler_archive/src/async.rs:83-97 | runs the extractor, so `ExtractBehaviour` holds of what it did; the result is that of the extraction unless the join fails |
| Async.UrlGate | crates/rattler_archive/src/async.rs:108-118 | passes exactly when a format is configured or the URL's path names one; otherwise `FormatDetection` with context `URL: <url>` and the fixed reason |
| Async.ConfiguredFormatPassesGate | crates/rattler_archive/src/async.rs:108-111 | with a format configured, the URL check never fails |
| Async.ExtractFromUrl | crates/rattler_archive/src/async.rs:101-121 | a failed check returns `FormatDetection` and touches nothing; otherwise the outcome is exactly that of `extract(archive_path, destination)` with the configured format, so the URL's format is not used |
| Async.UrlFormat | crates/rattler_archive/src/async.rs:108-111 | the configured format, else the URL's; it exists exactly when the check passes |
| Async.ExtractFromUrlForwarding | crates/rattler_archive/src/async.rs:101-121 | as `ExtractFromUrl`, but the extraction uses the format the check found |
| Async.FamilyNeverUnsupported | crates/rattler_archive/src/extractor.rs:134-254 | after format resolution no failure is `UnsupportedFormat` |
| Async.DownloadIsUnrecognised | crates/rattler_archive/src/format.rs:71-76 | a file called `download` has no recognisable format |
| Async.TestUrlIsTarGz | crates/rattler_archive/src/async.rs:175 | `https://example.com/test.tar.gz` names a TarGz archive |
| Async.UrlFormatDiscarded | crates/rattler_archive/src/async.rs:108-120 | the URL names tar.gz so the check passes, yet the archive file `download` is refused as `UnsupportedFormat` |
| Async.ForwardedFormatIsNeverUnsupported | crates/rattler_archive/src/async.rs:108-120 | with the format forwarded, a URL that passes the check never ends in `UnsupportedFormat`, whatever the file is called |

## Left out

- `IndicatifProgressReporter` and `with_progress_bar`: terminal progress-bar rendering, behind the `progress` feature.
- Cargo features: `sevenz` and `url-detection` are taken as enabled; `progress` and `tokio` gating is not modelled.
- The codecs and container parsers are not modelled. This covers flate2, bzip2, xz2, zstd, `tar::Archive::unpack`, `zip::ZipArchive` and `sevenz_rust2::decompress`. Each is an unpack step that yields what it wrote and possibly a failure message.
- Real filesystem semantics are out: cross-device moves, overwrite rules and the bytes read from the archive file. A rename that succeeds replaces the destination entry of that name.
- Extraction.Place: unpacking without stripping merges what was written into the destination one level deep. Real unpackers merge subdirectories recursively.
- Extraction.MoveExtractedDir: an error while iterating a `read_dir` listing is not modelled; only `read_dir` itself failing is.
- Extraction.MoveAll: `read_dir` order is unspecified, so which entries were moved before a failing rename is a relation, not a function.
- Extraction.Extract: the destination path is not modelled; the `Disk` is the destination directory itself. The temporary directory is local to each family function and dropped on every path, as `TempDir` is.
- Async.Extract: `spawn_blocking`, the raw pointer to the extractor, and cancellation are not modelled. The worker runs to the end; a join failure replaces its result.
- Progress.ProgressReader.Read: the inner reader and the buffer contents are not modelled. `bytes_read` is an unbounded `nat`, so the `u64` overflow of `+=` (a panic in debug builds, wrap-around in release builds) is absent.
- Progress.ProgressReader.Seek: the inner reader's position is not modelled; its result is a parameter.
- Format.DetectFromFilename: `to_lowercase` is modelled for ASCII letters only; every listed extension is ASCII.
- Format.Serialization: the `Url` record has no user info, password or port, so a URL such as `https://user@host:8080/x.tar.gz` is not printed as `Url`'s `Display` prints it. The `url` crate's parsing normalisation is not modelled either: lower-cased scheme and host, default ports dropped, percent-encoding, and `/` for an empty path. This text appears only in the `URL: <url>` context of the `FormatDetection` error.
- Paths.FileName: Unix paths only; Windows prefixes and `\` separators are not modelled.
- Paths.Display: invalid bytes are shown one replacement character each; Rust shows one per maximal invalid sequence.
- `Default` for both builders is `new` and is not modelled separately.
- `Errors.TempDirCreation` and `Errors.RootDirectoryStripping` are declared and displayed, but no extraction path produces them: nothing in the crate builds `TempDirCreation`, and `RootDirectoryStripping` is built only by the public helper `root_directory_stripping` (crates/rattler_archive/src/error.rs:88-93), which nothing in the crate calls.

## Findings

| source | as written | input that shows it | evidently intended | confidence | as-written member | corrected member |
|---|---|---|---|---|---|---|
| crates/rattler_archive/src/async.rs:108-120 | `extract_from_url` detects a format from the URL only to decide whether to continue. It then calls `extract(archive_path, destination)`, which detects the format again from the archive path. | no format configured; URL `https://example.com/test.tar.gz`; archive file `download`. The check passes, and the result is `UnsupportedFormat("download")`. | the format found in the URL (the comment says "Detect format from URL if not explicitly set") is used for the extraction | medium, not executed | Async.ExtractFromUrl, Async.UrlFormatDiscarded | Async.ExtractFromUrlForwarding, Async.ForwardedFormatIsNeverUnsupported |

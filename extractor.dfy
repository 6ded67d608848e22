/** The extractor: its builder, format resolution, dispatch to the tar, ZIP
    and 7z paths, and the normaliser that strips a lone root directory.
    Every filesystem and codec outcome the extractor depends on is given by
    an `Environment`; the destination directory is a `Disk`. */
module Extraction {
  import opened Wrappers
  import opened Errors
  import Paths
  import opened Format
  import opened Progress
  import opened FileSystem

  // ---------------------------------------------------------------------
  // Builder

  /** `ExtractorBuilder`. */
  datatype ExtractorBuilder = ExtractorBuilder(stripRootDir: bool, reporter: Reporter, format: Option<ArchiveFormat>)

  /** `Extractor`. */
  datatype Extractor = Extractor(stripRootDir: bool, reporter: Reporter, format: Option<ArchiveFormat>)

  /** `ExtractorBuilder::new`: strip the root directory, detect the format,
      report nothing. */
  method NewBuilder() returns (b: ExtractorBuilder)
    ensures b.stripRootDir && b.format == None
    ensures fresh(b.reporter) && b.reporter.silent && b.reporter.log == []
  {
    var reporter := new Reporter.NoProgress();
    b := ExtractorBuilder(true, reporter, None);
  }

  /** `with_strip_root_dir`. */
  function WithStripRootDir(b: ExtractorBuilder, strip: bool): (r: ExtractorBuilder)
    ensures r.stripRootDir == strip
    ensures r.reporter == b.reporter && r.format == b.format
  {
    b.(stripRootDir := strip)
  }

  /** `with_progress_reporter`. */
  function WithProgressReporter(b: ExtractorBuilder, reporter: Reporter): (r: ExtractorBuilder)
    ensures r.reporter == reporter
    ensures r.stripRootDir == b.stripRootDir && r.format == b.format
  {
    b.(reporter := reporter)
  }

  /** `with_format`. */
  function WithFormat(b: ExtractorBuilder, format: ArchiveFormat): (r: ExtractorBuilder)
    ensures r.format == Some(format)
    ensures r.stripRootDir == b.stripRootDir && r.reporter == b.reporter
  {
    b.(format := Some(format))
  }

  /** `build`. */
  function Build(b: ExtractorBuilder): (x: Extractor)
    ensures x.stripRootDir == b.stripRootDir && x.reporter == b.reporter && x.format == b.format
  {
    Extractor(b.stripRootDir, b.reporter, b.format)
  }

  /** Setters of different fields commute, and a second setting of a field
      replaces the first. */
  lemma SettersCommute(b: ExtractorBuilder, strip: bool, reporter: Reporter, f: ArchiveFormat, g: ArchiveFormat)
    ensures WithFormat(WithStripRootDir(b, strip), f) == WithStripRootDir(WithFormat(b, f), strip)
    ensures WithProgressReporter(WithStripRootDir(b, strip), reporter) == WithStripRootDir(WithProgressReporter(b, reporter), strip)
    ensures WithProgressReporter(WithFormat(b, f), reporter) == WithFormat(WithProgressReporter(b, reporter), f)
    ensures WithFormat(WithFormat(b, f), g) == WithFormat(b, g)
    ensures WithStripRootDir(WithStripRootDir(b, !strip), strip) == WithStripRootDir(b, strip)
  {
  }

  /** The builder test of the crate: from the defaults, turning stripping off
      and choosing TarGz gives an extractor with exactly those settings. */
  lemma BuilderPatternExample(b: ExtractorBuilder)
    requires b.stripRootDir && b.format == None
    ensures !Build(WithFormat(WithStripRootDir(b, false), TarGz)).stripRootDir
    ensures Build(WithFormat(WithStripRootDir(b, false), TarGz)).format == Some(TarGz)
    ensures Build(WithFormat(WithStripRootDir(b, false), TarGz)).reporter == b.reporter
  {
  }

  // ---------------------------------------------------------------------
  // Format resolution and dispatch

  /** The first step of `extract`: an explicit format wins; otherwise the
      archive path's file name decides, and an unrecognised name is an
      `UnsupportedFormat` error naming the displayed path. */
  function ResolveFormat(explicit: Option<ArchiveFormat>, path: Paths.Path): (r: Result<ArchiveFormat, ArchiveError>)
    ensures explicit.Some? ==> r == Success(explicit.value)
    ensures explicit.None? ==> (r.Success? <==> DetectFromPath(path).Some?)
    ensures explicit.None? && r.Success? ==> DetectFromPath(path) == Some(r.value)
    ensures r.Failure? ==> r.error == UnsupportedFormat(Paths.Display(path))
  {
    if explicit.Some? then Success(explicit.value)
    else match DetectFromPath(path)
      case Some(f) => Success(f)
      case None => Failure(UnsupportedFormatError(Paths.Display(path)))
  }

  /** `TarCompression`. */
  datatype TarCompression = Plain | Gzip | Bzip2 | Xz | Zstd

  /** Where `extract` sends each format. */
  datatype Route = TarRoute(compression: TarCompression) | ZipRoute | SevenZipRoute

  /** The dispatch `match` of `extract`. */
  function RouteOf(f: ArchiveFormat): (r: Route)
    ensures r.TarRoute? <==> IsTarBased(f)
    ensures r == ZipRoute <==> f == Zip
    ensures r == SevenZipRoute <==> f == SevenZip
  {
    match f
    case Tar => TarRoute(Plain)
    case TarGz => TarRoute(Gzip)
    case TarBz2 => TarRoute(Bzip2)
    case TarXz => TarRoute(Xz)
    case TarLzma => TarRoute(Xz)
    case TarZst => TarRoute(Zstd)
    case Zip => ZipRoute
    case SevenZip => SevenZipRoute
  }

  /** Every route is reached, and TarXz and TarLzma are the only two formats
      that share one (the xz decoder reads both). */
  lemma DispatchTable(f: ArchiveFormat, g: ArchiveFormat, route: Route)
    ensures RouteOf(f) == RouteOf(g) && f != g ==> {f, g} == {TarXz, TarLzma}
    ensures exists h :: RouteOf(h) == route
  {
    match route
    case TarRoute(c) => {
      match c
      case Plain => assert RouteOf(Tar) == route;
      case Gzip => assert RouteOf(TarGz) == route;
      case Bzip2 => assert RouteOf(TarBz2) == route;
      case Xz => assert RouteOf(TarXz) == route;
      case Zstd => assert RouteOf(TarZst) == route;
    }
    case ZipRoute => assert RouteOf(Zip) == route;
    case SevenZipRoute => assert RouteOf(SevenZip) == route;
  }

  /** The error an unpack failure of each family becomes. */
  function ContainerError(route: Route, message: string): (e: ArchiveError)
    ensures e.TarExtraction? <==> route.TarRoute?
    ensures e.ZipExtraction? <==> route.ZipRoute?
    ensures e.SevenZipExtraction? <==> route.SevenZipRoute?
    ensures e.message == message
    ensures route.TarRoute? ==> Display(e) == "Failed to extract tar archive: " + message
    ensures route.ZipRoute? ==> Display(e) == "Failed to extract zip archive: " + message
    ensures route.SevenZipRoute? ==> Display(e) == "Failed to extract 7z archive: " + message
  {
    match route
    case TarRoute(_) => TarExtraction(message)
    case ZipRoute => ZipExtraction(message)
    case SevenZipRoute => SevenZipExtraction(message)
  }

  /** The message each family passes to `on_finish`. */
  function FinishMessage(route: Route): (m: string)
    ensures |m| > 10 && m[..10] == "Extracted "
  {
    match route
    case TarRoute(_) => "Extracted tar archive"
    case ZipRoute => "Extracted ZIP archive"
    case SevenZipRoute => "Extracted 7z archive"
  }

  // ---------------------------------------------------------------------
  // The environment

  /** What an unpacker wrote before it stopped, and the message of its
      failure if it failed. */
  datatype Unpack = Unpack(written: Listing, failure: Option<string>)

  /** The answers of the filesystem and the codecs during one extraction. */
  datatype Environment = Environment(
    createDestination: Outcome<IoError>,  // create_dir_all(destination)
    archiveSize: Option<nat>,             // metadata(archive).len(), if readable
    openArchive: Outcome<IoError>,        // File::open(archive)
    zstdDecoder: Outcome<IoError>,        // zstd Decoder::new
    zipContainer: Outcome<string>,        // ZipArchive::new
    tempDir: Outcome<IoError>,            // tempfile::tempdir()
    unpack: Unpack,                       // tar unpack / zip extract / 7z decompress
    listScratch: Outcome<IoError>,        // read_dir(scratch)
    entryKind: Outcome<IoError>,          // file_type() of the lone entry
    listSource: Outcome<IoError>,         // read_dir of the directory to move from
    renameFaults: map<string, IoError>)   // rename failures, by entry name

  // ---------------------------------------------------------------------
  // Specification

  /** The family-specific steps before unpacking: opening the archive, then
      the zstd decoder or the ZIP central directory. */
  function Preparation(route: Route, env: Environment): (r: Outcome<ArchiveError>)
    ensures r.Pass? <==> && env.openArchive.Pass?
                         && (route == TarRoute(Zstd) ==> env.zstdDecoder.Pass?)
                         && (route == ZipRoute ==> env.zipContainer.Pass?)
    ensures env.openArchive.Fail? ==> r == Fail(Io(env.openArchive.error))
    ensures r.Fail? ==> r.error.Io? || (route == ZipRoute && r.error == ZipExtraction(env.zipContainer.error))
  {
    if env.openArchive.Fail? then Fail(Io(env.openArchive.error))
    else match route
      case TarRoute(c) =>
        if c == Zstd && env.zstdDecoder.Fail? then Fail(Io(env.zstdDecoder.error)) else Pass
      case ZipRoute =>
        if env.zipContainer.Fail? then Fail(ZipExtraction(env.zipContainer.error)) else Pass
      case SevenZipRoute => Pass
  }

  /** A non-empty listing has a name. */
  lemma NonEmptyHasKey(m: Listing)
    requires |m| > 0
    ensures exists k :: k in m
  {
    var k :| k in m.Keys;
  }

  /** The directory whose entries are moved: the lone entry when the scratch
      directory holds a single directory, the scratch directory otherwise. */
  ghost function Source(scratch: Listing): (source: Listing)
    ensures |scratch| != 1 ==> source == scratch
    ensures source == scratch || exists k :: k in scratch && scratch[k] == Dir(source)
  {
    if |scratch| == 1 then
      NonEmptyHasKey(scratch);
      var k :| k in scratch;
      if scratch[k].Dir? then scratch[k].children else scratch
    else scratch
  }

  /** The outcome of moving every entry of `source` into a destination that
      held `dest0` and now holds `dest1`, one rename at a time in an
      unspecified order, stopping at the first rename that fails. */
  ghost predicate MovedInto(dest0: Listing, dest1: Listing, source: Listing, faults: map<string, IoError>, r: Outcome<ArchiveError>) {
    exists moved: set<string> :: MovedBefore(dest0, dest1, source, faults, r, moved)
  }

  /** `MovedInto`, with the names renamed before the loop stopped. */
  ghost predicate MovedBefore(dest0: Listing, dest1: Listing, source: Listing, faults: map<string, IoError>,
                              r: Outcome<ArchiveError>, moved: set<string>) {
    && moved <= source.Keys && moved !! faults.Keys
    && dest1 == dest0 + Restrict(source, moved)
    && (r.Pass? ==> moved == source.Keys)
    && (r.Fail? ==> StoppedAt(source, faults, moved, r.error))
  }

  /** The loop stopped at a name it had not yet moved, whose rename failed. */
  ghost predicate StoppedAt(source: Listing, faults: map<string, IoError>, moved: set<string>, e: ArchiveError) {
    exists n :: n in source && n in faults && n !in moved && e == Io(faults[n])
  }

  /** `move_extracted_dir` from a scratch directory holding `scratch`. */
  ghost predicate MoveBehaviour(scratch: Listing, env: Environment, dest0: Listing, dest1: Listing, r: Outcome<ArchiveError>) {
    if env.listScratch.Fail? then r == Fail(Io(env.listScratch.error)) && dest1 == dest0
    else if |scratch| == 0 then r == Fail(EmptyArchive) && dest1 == dest0
    else if |scratch| == 1 && env.entryKind.Fail? then r == Fail(Io(env.entryKind.error)) && dest1 == dest0
    else if env.listSource.Fail? then r == Fail(Io(env.listSource.error)) && dest1 == dest0
    else MovedInto(dest0, dest1, Source(scratch), env.renameFaults, r)
  }

  /** Unpacking, once the archive is open: straight into the destination, or
      into a scratch directory whose contents are then moved. */
  ghost predicate PlaceBehaviour(route: Route, strip: bool, env: Environment, dest0: Listing, dest1: Listing, r: Outcome<ArchiveError>) {
    if !strip then
      && dest1 == dest0 + env.unpack.written
      && r == (if env.unpack.failure.Some? then Fail(ContainerError(route, env.unpack.failure.value)) else Pass)
    else if env.tempDir.Fail? then r == Fail(Io(env.tempDir.error)) && dest1 == dest0
    else if env.unpack.failure.Some? then r == Fail(ContainerError(route, env.unpack.failure.value)) && dest1 == dest0
    else MoveBehaviour(env.unpack.written, env, dest0, dest1, r)
  }

  /** `extract_tar`, `extract_zip` and `extract_7z`. */
  ghost predicate FamilyBehaviour(route: Route, strip: bool, env: Environment, dest0: Listing, dest1: Listing, r: Outcome<ArchiveError>) {
    var prep := Preparation(route, env);
    if prep.Fail? then r == prep && dest1 == dest0
    else PlaceBehaviour(route, strip, env, dest0, dest1, r)
  }

  /** `extract`, from a destination that existed (`existed0`) holding `dest0`
      to one that exists (`existed1`) holding `dest1`. */
  ghost predicate ExtractBehaviour(strip: bool, format: Option<ArchiveFormat>, path: Paths.Path, env: Environment,
                                   existed0: bool, dest0: Listing, existed1: bool, dest1: Listing, r: Outcome<ArchiveError>) {
    match ResolveFormat(format, path)
    case Failure(e) => r == Fail(e) && existed1 == existed0 && dest1 == dest0
    case Success(f) =>
      if env.createDestination.Fail? then
        r == Fail(Io(env.createDestination.error)) && existed1 == existed0 && dest1 == dest0
      else
        existed1 && FamilyBehaviour(RouteOf(f), strip, env, if existed0 then dest0 else map[], dest1, r)
  }

  /** The call an extraction family makes on its reporter. */
  function FinishCalls(route: Route, r: Outcome<ArchiveError>): seq<ProgressCall> {
    if r.Pass? then [Finished(FinishMessage(route))] else []
  }

  /** The calls `extract` makes on its reporter: `on_start` once the
      destination exists, `on_finish` after a successful unpack, and never
      `on_progress`. */
  function ExtractCalls(format: Option<ArchiveFormat>, path: Paths.Path, env: Environment, r: Outcome<ArchiveError>): (calls: seq<ProgressCall>)
    ensures forall i :: 0 <= i < |calls| ==> !calls[i].Progressed?
    ensures |calls| <= 2
    ensures |calls| > 0 ==> calls[0] == Started(env.archiveSize)
    ensures forall i :: 0 <= i < |calls| && calls[i].Finished? ==> i == 1 && r.Pass?
  {
    match ResolveFormat(format, path)
    case Failure(_) => []
    case Success(f) =>
      if env.createDestination.Fail? then [] else [Started(env.archiveSize)] + FinishCalls(RouteOf(f), r)
  }

  // ---------------------------------------------------------------------
  // The extractor

  /** Moves every entry of `source` into the destination, in whatever order
      the directory listing gives them, stopping at the first failed rename. */
  method MoveAll(source: Listing, faults: map<string, IoError>, disk: Disk) returns (r: Outcome<ArchiveError>)
    modifies disk
    ensures disk.destExists == old(disk.destExists)
    ensures MovedInto(old(disk.dest), disk.dest, source, faults, r)
  {
    var remaining := source.Keys;
    ghost var moved: set<string> := {};
    while remaining != {}
      invariant remaining !! moved && remaining + moved == source.Keys
      invariant moved !! faults.Keys
      invariant disk.destExists == old(disk.destExists)
      invariant disk.dest == old(disk.dest) + Restrict(source, moved)
      decreases remaining
    {
      var name :| name in remaining;
      if name in faults {
        r := Fail(FromIo(faults[name]));
        assert MovedBefore(old(disk.dest), disk.dest, source, faults, r, moved) by {
          assert name in source && name !in moved;
        }
        return;
      }
      RestrictInsert(source, moved, name);
      UnionUpdate(old(disk.dest), Restrict(source, moved), name, source[name]);
      disk.Rename(name, source[name]);
      moved := moved + {name};
      remaining := remaining - {name};
    }
    r := Pass;
    assert MovedBefore(old(disk.dest), disk.dest, source, faults, r, moved) by {
      assert moved == source.Keys;
    }
  }

  /** `move_extracted_dir`: the scratch directory holds `scratch`. */
  method MoveExtractedDir(scratch: Listing, disk: Disk, env: Environment) returns (r: Outcome<ArchiveError>)
    modifies disk
    ensures disk.destExists == old(disk.destExists)
    ensures MoveBehaviour(scratch, env, old(disk.dest), disk.dest, r)
  {
    if env.listScratch.Fail? {
      return Fail(FromIo(env.listScratch.error));
    }
    if |scratch| == 0 {
      return Fail(EmptyArchive);
    }
    NonEmptyHasKey(scratch);
    var first :| first in scratch;
    var source := scratch;
    if |scratch| == 1 {
      if env.entryKind.Fail? {
        return Fail(FromIo(env.entryKind.error));
      }
      if scratch[first].Dir? {
        source := scratch[first].children;
      }
      forall k | k in scratch
        ensures k == first
      {
        SoleKey(scratch, k, first);
      }
    }
    assert source == Source(scratch);
    if env.listSource.Fail? {
      return Fail(FromIo(env.listSource.error));
    }
    r := MoveAll(source, env.renameFaults, disk);
  }

  /** The unpack step shared by the three families, once the archive is open. */
  method Place(route: Route, strip: bool, disk: Disk, env: Environment) returns (r: Outcome<ArchiveError>)
    modifies disk
    ensures disk.destExists == old(disk.destExists)
    ensures PlaceBehaviour(route, strip, env, old(disk.dest), disk.dest, r)
  {
    if strip {
      if env.tempDir.Fail? {
        return Fail(FromIo(env.tempDir.error));
      }
      var scratch: Listing := env.unpack.written;
      if env.unpack.failure.Some? {
        return Fail(ContainerError(route, env.unpack.failure.value));
      }
      r := MoveExtractedDir(scratch, disk, env);
    } else {
      disk.WriteAll(env.unpack.written);
      if env.unpack.failure.Some? {
        return Fail(ContainerError(route, env.unpack.failure.value));
      }
      r := Pass;
    }
  }

  /** `extract_tar`. */
  method ExtractTar(x: Extractor, compression: TarCompression, disk: Disk, env: Environment) returns (r: Outcome<ArchiveError>)
    modifies disk, x.reporter
    ensures disk.destExists == old(disk.destExists)
    ensures FamilyBehaviour(TarRoute(compression), x.stripRootDir, env, old(disk.dest), disk.dest, r)
    ensures x.reporter.log == old(x.reporter.log) + x.reporter.Kept(FinishCalls(TarRoute(compression), r))
  {
    if env.openArchive.Fail? {
      return Fail(FromIo(env.openArchive.error));
    }
    if compression == Zstd && env.zstdDecoder.Fail? {
      return Fail(FromIo(env.zstdDecoder.error));
    }
    r := Place(TarRoute(compression), x.stripRootDir, disk, env);
    if r.Pass? {
      x.reporter.OnFinish("Extracted tar archive");
    }
  }

  /** `extract_zip`. */
  method ExtractZip(x: Extractor, disk: Disk, env: Environment) returns (r: Outcome<ArchiveError>)
    modifies disk, x.reporter
    ensures disk.destExists == old(disk.destExists)
    ensures FamilyBehaviour(ZipRoute, x.stripRootDir, env, old(disk.dest), disk.dest, r)
    ensures x.reporter.log == old(x.reporter.log) + x.reporter.Kept(FinishCalls(ZipRoute, r))
  {
    if env.openArchive.Fail? {
      return Fail(FromIo(env.openArchive.error));
    }
    if env.zipContainer.Fail? {
      return Fail(ZipExtractionError(env.zipContainer.error));
    }
    r := Place(ZipRoute, x.stripRootDir, disk, env);
    if r.Pass? {
      x.reporter.OnFinish("Extracted ZIP archive");
    }
  }

  /** `extract_7z`. */
  method ExtractSevenZip(x: Extractor, disk: Disk, env: Environment) returns (r: Outcome<ArchiveError>)
    modifies disk, x.reporter
    ensures disk.destExists == old(disk.destExists)
    ensures FamilyBehaviour(SevenZipRoute, x.stripRootDir, env, old(disk.dest), disk.dest, r)
    ensures x.reporter.log == old(x.reporter.log) + x.reporter.Kept(FinishCalls(SevenZipRoute, r))
  {
    if env.openArchive.Fail? {
      return Fail(FromIo(env.openArchive.error));
    }
    r := Place(SevenZipRoute, x.stripRootDir, disk, env);
    if r.Pass? {
      x.reporter.OnFinish("Extracted 7z archive");
    }
  }

  /** `Extractor::extract`. */
  method Extract(x: Extractor, archivePath: Paths.Path, disk: Disk, env: Environment) returns (r: Outcome<ArchiveError>)
    modifies disk, x.reporter
    ensures ExtractBehaviour(x.stripRootDir, x.format, archivePath, env,
                             old(disk.destExists), old(disk.dest), disk.destExists, disk.dest, r)
    ensures x.reporter.log == old(x.reporter.log) + x.reporter.Kept(ExtractCalls(x.format, archivePath, env, r))
  {
    var resolved := ResolveFormat(x.format, archivePath);
    if resolved.Failure? {
      return Fail(resolved.error);
    }
    var format := resolved.value;
    r := disk.CreateDirAll(env.createDestination);
    if r.Fail? {
      return;
    }
    x.reporter.OnStart(env.archiveSize);
    r := Dispatch(x, format, disk, env);
    KeptOfAppend(x.reporter, [Started(env.archiveSize)], FinishCalls(RouteOf(format), r));
  }

  /** The dispatch of `extract` on the resolved format, once the destination
      exists and the start has been reported. */
  method Dispatch(x: Extractor, format: ArchiveFormat, disk: Disk, env: Environment) returns (r: Outcome<ArchiveError>)
    modifies disk, x.reporter
    ensures disk.destExists == old(disk.destExists)
    ensures FamilyBehaviour(RouteOf(format), x.stripRootDir, env, old(disk.dest), disk.dest, r)
    ensures x.reporter.log == old(x.reporter.log) + x.reporter.Kept(FinishCalls(RouteOf(format), r))
  {
    match format {
      case Tar => r := ExtractTar(x, Plain, disk, env);
      case TarGz => r := ExtractTar(x, Gzip, disk, env);
      case TarBz2 => r := ExtractTar(x, Bzip2, disk, env);
      case TarXz | TarLzma => r := ExtractTar(x, Xz, disk, env);
      case TarZst => r := ExtractTar(x, Zstd, disk, env);
      case Zip => r := ExtractZip(x, disk, env);
      case SevenZip => r := ExtractSevenZip(x, disk, env);
    }
  }

  // ---------------------------------------------------------------------
  // Properties of the specification

  lemma RestrictAll(m: Listing)
    ensures Restrict(m, m.Keys) == m
  {
  }

  /** Moving succeeds exactly when no entry's rename fails, and then every
      entry of the source is in the destination under its own name; a failure
      is the `Io` error of one of the failing renames. */
  lemma MoveSucceedsExactlyWithoutFaults(dest0: Listing, dest1: Listing, source: Listing, faults: map<string, IoError>, r: Outcome<ArchiveError>)
    requires MovedInto(dest0, dest1, source, faults, r)
    ensures r.Pass? <==> source.Keys !! faults.Keys
    ensures r.Pass? ==> dest1 == dest0 + source
    ensures r.Fail? ==> exists n :: n in source && n in faults && r.error == Io(faults[n])
  {
    var moved :| MovedBefore(dest0, dest1, source, faults, r, moved);
    if r.Pass? {
      RestrictAll(source);
    } else {
      var n :| n in source && n in faults && n !in moved && r.error == Io(faults[n]);
      assert n in source.Keys * faults.Keys;
    }
  }

  /** A move, whether or not it fails, leaves every destination entry that
      has no namesake in the source as it was, adds only source entries, and
      is not rolled back: what was moved before a failure stays moved. */
  lemma MoveOnlyAddsSourceEntries(dest0: Listing, dest1: Listing, source: Listing, faults: map<string, IoError>, r: Outcome<ArchiveError>)
    requires MovedInto(dest0, dest1, source, faults, r)
    ensures forall k :: k in dest0 && k !in source ==> k in dest1 && dest1[k] == dest0[k]
    ensures forall k :: k in dest1 ==> k in dest0 || k in source
    ensures forall k :: k in dest1 && k !in dest0 ==> dest1[k] == source[k]
  {
    var moved :| MovedBefore(dest0, dest1, source, faults, r, moved);
  }

  /** An empty scratch directory is an `EmptyArchive` error and nothing is
      moved. */
  lemma EmptyArchiveRejected(env: Environment, dest0: Listing, dest1: Listing, r: Outcome<ArchiveError>)
    requires env.listScratch.Pass?
    requires MoveBehaviour(map[], env, dest0, dest1, r)
    ensures r == Fail(EmptyArchive) && dest1 == dest0
  {
  }

  /** A scratch directory holding one directory is stripped: its children,
      not the directory, are moved. */
  lemma SourceOfSingleRoot(root: string, children: Listing)
    ensures Source(map[root := Dir(children)]) == children
  {
    var m := map[root := Dir(children)];
    assert m.Keys == {root};
  }

  /** A scratch directory with several entries, or with a single file, is
      moved as it is. */
  lemma SourceOfOthers(scratch: Listing)
    requires |scratch| != 1 || (forall k :: k in scratch ==> scratch[k].File?)
    ensures Source(scratch) == scratch
  {
  }

  /** When nothing fails, a lone root directory's children end up directly in
      the destination. */
  lemma SingleRootIsStripped(root: string, children: Listing, env: Environment, dest0: Listing, dest1: Listing, r: Outcome<ArchiveError>)
    requires env.listScratch.Pass? && env.entryKind.Pass? && env.listSource.Pass?
    requires children.Keys !! env.renameFaults.Keys
    requires MoveBehaviour(map[root := Dir(children)], env, dest0, dest1, r)
    ensures r == Pass && dest1 == dest0 + children
  {
    var m := map[root := Dir(children)];
    assert m.Keys == {root};
    SourceOfSingleRoot(root, children);
    MoveSucceedsExactlyWithoutFaults(dest0, dest1, children, env.renameFaults, r);
  }

  /** Without root stripping everything the unpacker wrote lands directly in
      the destination, even when it then fails. */
  lemma NoStripWritesIntoDestination(route: Route, env: Environment, dest0: Listing, dest1: Listing, r: Outcome<ArchiveError>)
    requires Preparation(route, env).Pass?
    requires FamilyBehaviour(route, false, env, dest0, dest1, r)
    ensures dest1 == dest0 + env.unpack.written
    ensures r.Pass? <==> env.unpack.failure.None?
    ensures r.Fail? ==> r.error == ContainerError(route, env.unpack.failure.value)
  {
  }

  /** An archive whose format is neither given nor recognisable is refused
      before anything is created or reported. */
  lemma UnsupportedFormatChangesNothing(strip: bool, path: Paths.Path, env: Environment,
                                        existed0: bool, dest0: Listing, existed1: bool, dest1: Listing, r: Outcome<ArchiveError>)
    requires DetectFromPath(path).None?
    requires ExtractBehaviour(strip, None, path, env, existed0, dest0, existed1, dest1, r)
    ensures r == Fail(UnsupportedFormat(Paths.Display(path)))
    ensures existed1 == existed0 && dest1 == dest0
    ensures ExtractCalls(None, path, env, r) == []
  {
  }

  /** A successful extraction made the destination, reported its start with
      the archive size, and reported its end with its family's message. */
  lemma SuccessfulExtraction(strip: bool, format: Option<ArchiveFormat>, path: Paths.Path, env: Environment,
                             existed0: bool, dest0: Listing, existed1: bool, dest1: Listing)
    requires ExtractBehaviour(strip, format, path, env, existed0, dest0, existed1, dest1, Pass)
    ensures ResolveFormat(format, path).Success? && env.createDestination.Pass? && existed1
    ensures ExtractCalls(format, path, env, Pass)
         == [Started(env.archiveSize), Finished(FinishMessage(RouteOf(ResolveFormat(format, path).value)))]
  {
  }

  /** Every failure after the destination exists is reported by `on_start`
      alone. */
  lemma FailedExtractionNeverFinishes(strip: bool, format: Option<ArchiveFormat>, path: Paths.Path, env: Environment, e: ArchiveError)
    requires ResolveFormat(format, path).Success? && env.createDestination.Pass?
    ensures ExtractCalls(format, path, env, Fail(e)) == [Started(env.archiveSize)]
  {
  }

  /** When nothing fails, a scratch directory holding one file is moved as
      it is. */
  lemma SingleFileIsMoved(scratch: Listing, name: string, env: Environment, dest0: Listing, dest1: Listing, r: Outcome<ArchiveError>)
    requires env.listScratch.Pass? && env.entryKind.Pass? && env.listSource.Pass?
    requires scratch.Keys == {name} && scratch[name].File? && name !in env.renameFaults
    requires MoveBehaviour(scratch, env, dest0, dest1, r)
    ensures r == Pass && dest1 == dest0[name := scratch[name]]
  {
    SourceOfOthers(scratch);
    MoveWithoutFaults(scratch, env, dest0, dest1, r);
    UnionWithSingleton(dest0, scratch, name);
  }

  /** Once the listings succeed and no rename fails, a non-empty scratch
      directory's source is moved in full. */
  lemma MoveWithoutFaults(scratch: Listing, env: Environment, dest0: Listing, dest1: Listing, r: Outcome<ArchiveError>)
    requires env.listScratch.Pass? && env.entryKind.Pass? && env.listSource.Pass? && |scratch| > 0
    requires Source(scratch).Keys !! env.renameFaults.Keys
    requires MoveBehaviour(scratch, env, dest0, dest1, r)
    ensures r == Pass && dest1 == dest0 + Source(scratch)
  {
    MoveSucceedsExactlyWithoutFaults(dest0, dest1, Source(scratch), env.renameFaults, r);
  }

  /** `test.tar.gz` in any directory is a TarGz archive. */
  lemma TestArchiveIsTarGz(dir: string)
    ensures ResolveFormat(None, Paths.FromStr(dir + "/" + "test.tar.gz")) == Success(TarGz)
  {
    assert "test.tar.gz" == "test" + ".tar.gz";
    UrlPathExample(dir, "test.tar.gz", "test", ".tar.gz", TarGz);
  }

  /** The crate's tar.gz test: a default extractor given `test.tar.gz` holding
      the single file `test.txt` = "hello" leaves exactly that file in an
      empty destination. */
  lemma TarGzExample(dir: string, env: Environment, dest1: Listing, existed1: bool, r: Outcome<ArchiveError>)
    requires env.createDestination.Pass? && env.openArchive.Pass? && env.tempDir.Pass?
    requires env.unpack == Unpack(map["test.txt" := File([104, 101, 108, 108, 111])], None)
    requires env.listScratch.Pass? && env.entryKind.Pass? && env.listSource.Pass? && env.renameFaults == map[]
    requires ExtractBehaviour(true, None, Paths.FromStr(dir + "/" + "test.tar.gz"), env, true, map[], existed1, dest1, r)
    ensures r == Pass && dest1 == map["test.txt" := File([104, 101, 108, 108, 111])]
  {
    TestArchiveIsTarGz(dir);
    assert FamilyBehaviour(TarRoute(Gzip), true, env, map[], dest1, r);
    TarGzFamilyExample(env, dest1, r);
  }

  /** The tar.gz family step of the same test, once the format is known. */
  lemma TarGzFamilyExample(env: Environment, dest1: Listing, r: Outcome<ArchiveError>)
    requires env.openArchive.Pass? && env.tempDir.Pass?
    requires env.unpack == Unpack(map["test.txt" := File([104, 101, 108, 108, 111])], None)
    requires env.listScratch.Pass? && env.entryKind.Pass? && env.listSource.Pass? && env.renameFaults == map[]
    requires FamilyBehaviour(TarRoute(Gzip), true, env, map[], dest1, r)
    ensures r == Pass && dest1 == map["test.txt" := File([104, 101, 108, 108, 111])]
  {
    var scratch := env.unpack.written;
    assert MoveBehaviour(scratch, env, map[], dest1, r);
    assert scratch.Keys == {"test.txt"};
    SingleFileIsMoved(scratch, "test.txt", env, map[], dest1, r);
  }

  /** The scenario of the crate's tar.gz test, followed through `Extract` in
      the model: a default extractor given `<dir>/test.tar.gz`, holding
      `test.txt` = "hello", and an existing empty directory ends in `Pass`
      and leaves exactly that file; the default reporter keeps nothing. */
  method ExtractTarGzExample(dir: string) returns (r: Outcome<ArchiveError>, dest: Listing, log: seq<ProgressCall>)
    ensures r == Pass && dest == map["test.txt" := File([104, 101, 108, 108, 111])]
    ensures log == []
  {
    var b := NewBuilder();
    var x := Build(b);
    var disk := new Disk(true, map[]);
    var env := Environment(Pass, Some(5), Pass, Pass, Pass, Pass,
                           Unpack(map["test.txt" := File([104, 101, 108, 108, 111])], None),
                           Pass, Pass, Pass, map[]);
    r := Extract(x, Paths.FromStr(dir + "/" + "test.tar.gz"), disk, env);
    TarGzExample(dir, env, disk.dest, disk.destExists, r);
    dest := disk.dest;
    log := x.reporter.log;
  }
}

/** The asynchronous façade: a builder that forwards to the extractor's
    builder, an `extract` that runs the extractor on a worker thread, and
    `extract_from_url`, which first checks that a format is known. */
module Async {
  import opened Wrappers
  import opened Errors
  import Paths
  import opened Format
  import opened Progress
  import opened FileSystem
  import Extraction

  /** `AsyncExtractorBuilder`. */
  datatype AsyncExtractorBuilder = AsyncExtractorBuilder(inner: Extraction.ExtractorBuilder)

  /** `AsyncExtractor`. */
  datatype AsyncExtractor = AsyncExtractor(inner: Extraction.Extractor)

  /** `AsyncExtractorBuilder::new`: the extractor builder's defaults. */
  method NewBuilder() returns (b: AsyncExtractorBuilder)
    ensures b.inner.stripRootDir && b.inner.format == None
    ensures fresh(b.inner.reporter) && b.inner.reporter.silent && b.inner.reporter.log == []
  {
    var inner := Extraction.NewBuilder();
    b := AsyncExtractorBuilder(inner);
  }

  /** `with_strip_root_dir`: forwarded. */
  function WithStripRootDir(b: AsyncExtractorBuilder, strip: bool): (r: AsyncExtractorBuilder)
    ensures r.inner == Extraction.WithStripRootDir(b.inner, strip)
    ensures r.inner.stripRootDir == strip && r.inner.format == b.inner.format && r.inner.reporter == b.inner.reporter
  {
    AsyncExtractorBuilder(Extraction.WithStripRootDir(b.inner, strip))
  }

  /** `with_progress_reporter`: forwarded. */
  function WithProgressReporter(b: AsyncExtractorBuilder, reporter: Reporter): (r: AsyncExtractorBuilder)
    ensures r.inner == Extraction.WithProgressReporter(b.inner, reporter)
    ensures r.inner.reporter == reporter && r.inner.stripRootDir == b.inner.stripRootDir && r.inner.format == b.inner.format
  {
    AsyncExtractorBuilder(Extraction.WithProgressReporter(b.inner, reporter))
  }

  /** `with_format`: forwarded. */
  function WithFormat(b: AsyncExtractorBuilder, format: ArchiveFormat): (r: AsyncExtractorBuilder)
    ensures r.inner == Extraction.WithFormat(b.inner, format)
    ensures r.inner.format == Some(format) && r.inner.stripRootDir == b.inner.stripRootDir && r.inner.reporter == b.inner.reporter
  {
    AsyncExtractorBuilder(Extraction.WithFormat(b.inner, format))
  }

  /** `build`: wraps the extractor the inner builder builds. */
  function Build(b: AsyncExtractorBuilder): (x: AsyncExtractor)
    ensures x.inner == Extraction.Build(b.inner)
    ensures x.inner.stripRootDir == b.inner.stripRootDir && x.inner.format == b.inner.format && x.inner.reporter == b.inner.reporter
  {
    AsyncExtractor(Extraction.Build(b.inner))
  }

  /** Configuring the asynchronous builder and then building gives the same
      extractor as configuring the extractor builder directly. */
  lemma BuildersAgree(b: Extraction.ExtractorBuilder, strip: bool, reporter: Reporter, f: ArchiveFormat)
    ensures Build(WithFormat(WithProgressReporter(WithStripRootDir(AsyncExtractorBuilder(b), strip), reporter), f)).inner
         == Extraction.Build(Extraction.WithFormat(Extraction.WithProgressReporter(Extraction.WithStripRootDir(b, strip), reporter), f))
  {
  }

  /** The result of awaiting the worker: its own result, or, when the join
      fails with the given message, an `Io` error carrying that message. */
  function Joined(joinError: Option<string>, result: Outcome<ArchiveError>): (r: Outcome<ArchiveError>)
    ensures r.Pass? <==> joinError.None? && result.Pass?
    ensures joinError.None? ==> r == result
    ensures joinError.Some? ==> r.Fail? && r.error.Io? && Display(r.error) == "I/O error: " + joinError.value
  {
    if joinError.Some? then Fail(FromIo(IoError(joinError.value))) else result
  }

  /** `AsyncExtractor::extract`: the extractor runs to the end on a worker;
      `joinError` is the failure of awaiting it, if any. `inner` is what the
      worker's extraction returned. */
  method Extract(x: AsyncExtractor, archivePath: Paths.Path, disk: Disk, env: Extraction.Environment, joinError: Option<string>)
    returns (r: Outcome<ArchiveError>, ghost inner: Outcome<ArchiveError>)
    modifies disk, x.inner.reporter
    ensures Extraction.ExtractBehaviour(x.inner.stripRootDir, x.inner.format, archivePath, env,
                                        old(disk.destExists), old(disk.dest), disk.destExists, disk.dest, inner)
    ensures x.inner.reporter.log == old(x.inner.reporter.log) + x.inner.reporter.Kept(Extraction.ExtractCalls(x.inner.format, archivePath, env, inner))
    ensures r == Joined(joinError, inner)
  {
    var result := Extraction.Extract(x.inner, archivePath, disk, env);
    inner := result;
    r := Joined(joinError, result);
  }

  const UrlDetectionReason := "Could not detect archive format from URL path"

  /** The check `extract_from_url` makes before extracting: a format must be
      configured or recognisable from the URL's path. */
  function UrlGate(explicit: Option<ArchiveFormat>, url: Url): (r: Outcome<ArchiveError>)
    ensures r.Pass? <==> explicit.Some? || DetectFromUrl(url).Some?
    ensures r.Fail? ==> r.error == FormatDetection("URL: " + Serialization(url), UrlDetectionReason)
  {
    if explicit.Some? || DetectFromUrl(url).Some? then Pass
    else Fail(FormatDetectionError("URL: " + Serialization(url), UrlDetectionReason))
  }

  /** `extract_from_url` as written: the gate only decides whether to go on;
      the extraction itself is `extract(archive_path, destination)`, which
      resolves the format again from the archive path. */
  method ExtractFromUrl(x: AsyncExtractor, archivePath: Paths.Path, disk: Disk, env: Extraction.Environment,
                        joinError: Option<string>, url: Url)
    returns (r: Outcome<ArchiveError>, ghost inner: Outcome<ArchiveError>)
    modifies disk, x.inner.reporter
    ensures UrlGate(x.inner.format, url).Fail? ==>
      && r == UrlGate(x.inner.format, url)
      && disk.destExists == old(disk.destExists) && disk.dest == old(disk.dest)
      && x.inner.reporter.log == old(x.inner.reporter.log)
    ensures UrlGate(x.inner.format, url).Pass? ==>
      && Extraction.ExtractBehaviour(x.inner.stripRootDir, x.inner.format, archivePath, env,
                                     old(disk.destExists), old(disk.dest), disk.destExists, disk.dest, inner)
      && x.inner.reporter.log == old(x.inner.reporter.log) + x.inner.reporter.Kept(Extraction.ExtractCalls(x.inner.format, archivePath, env, inner))
      && r == Joined(joinError, inner)
  {
    var gate := UrlGate(x.inner.format, url);
    if gate.Fail? {
      return gate, gate;
    }
    r, inner := Extract(x, archivePath, disk, env, joinError);
  }

  /** The format `extract_from_url` evidently means to extract with: the
      configured one, else the one the URL's path names. */
  function UrlFormat(explicit: Option<ArchiveFormat>, url: Url): (r: Option<ArchiveFormat>)
    ensures explicit.Some? ==> r == explicit
    ensures explicit.None? ==> r == DetectFromUrl(url)
    ensures r.Some? <==> UrlGate(explicit, url).Pass?
  {
    if explicit.Some? then explicit else DetectFromUrl(url)
  }

  /** `extract_from_url` with the format it found forwarded to the
      extraction, as if set by `with_format`. */
  method ExtractFromUrlForwarding(x: AsyncExtractor, archivePath: Paths.Path, disk: Disk, env: Extraction.Environment,
                                  joinError: Option<string>, url: Url)
    returns (r: Outcome<ArchiveError>, ghost inner: Outcome<ArchiveError>)
    modifies disk, x.inner.reporter
    ensures UrlGate(x.inner.format, url).Fail? ==>
      && r == UrlGate(x.inner.format, url)
      && disk.destExists == old(disk.destExists) && disk.dest == old(disk.dest)
      && x.inner.reporter.log == old(x.inner.reporter.log)
    ensures UrlGate(x.inner.format, url).Pass? ==>
      && Extraction.ExtractBehaviour(x.inner.stripRootDir, UrlFormat(x.inner.format, url), archivePath, env,
                                     old(disk.destExists), old(disk.dest), disk.destExists, disk.dest, inner)
      && x.inner.reporter.log == old(x.inner.reporter.log) + x.inner.reporter.Kept(Extraction.ExtractCalls(UrlFormat(x.inner.format, url), archivePath, env, inner))
      && r == Joined(joinError, inner)
  {
    var format := UrlFormat(x.inner.format, url);
    if format.None? {
      r := Fail(FormatDetectionError("URL: " + Serialization(url), UrlDetectionReason));
      return r, r;
    }
    var forwarded := AsyncExtractor(x.inner.(format := format));
    r, inner := Extract(forwarded, archivePath, disk, env, joinError);
  }

  // ---------------------------------------------------------------------
  // Properties

  /** With a format configured, the URL is never looked at. */
  lemma ConfiguredFormatPassesGate(f: ArchiveFormat, url: Url)
    ensures UrlGate(Some(f), url) == Pass
  {
  }

  /** An extraction whose format is fixed in advance never fails with
      `UnsupportedFormat`: every later failure is one of the family's own. */
  lemma FamilyNeverUnsupported(route: Extraction.Route, strip: bool, env: Extraction.Environment,
                               dest0: Listing, dest1: Listing, r: Outcome<ArchiveError>)
    requires Extraction.FamilyBehaviour(route, strip, env, dest0, dest1, r)
    ensures r.Fail? ==> !r.error.UnsupportedFormat?
  {
    if r.Fail? && Extraction.Preparation(route, env).Pass? && strip && env.tempDir.Pass?
       && env.unpack.failure.None? && env.listScratch.Pass? && |env.unpack.written| != 0
       && !(|env.unpack.written| == 1 && env.entryKind.Fail?) && env.listSource.Pass? {
      var source := Extraction.Source(env.unpack.written);
      var moved :| Extraction.MovedBefore(dest0, dest1, source, env.renameFaults, r, moved);
      var n :| n in source && n in env.renameFaults && n !in moved && r.error == Io(env.renameFaults[n]);
    }
  }

  /** A file called `download` has no recognisable format. */
  lemma DownloadIsUnrecognised()
    ensures DetectFromPath(Paths.FromStr("download")) == None
    ensures Paths.Display(Paths.FromStr("download")) == "download"
  {
    var name := "download";
    Paths.FileNameOfName(Paths.FromStr(name));
    Paths.ToStrFromStr(name);
    DetectNeedsDot(name);
  }

  /** The URL of the crate's test names a tar.gz archive. */
  lemma TestUrlIsTarGz()
    ensures DetectFromUrl(Url("https", "example.com", "/test.tar.gz", None, None)) == Some(TarGz)
  {
    assert "test.tar.gz" == "test" + ".tar.gz";
    assert "/test.tar.gz" == "/" + "test.tar.gz";
    RootedPathExample("test.tar.gz", "test", ".tar.gz", TarGz);
  }

  /** The discrepancy in `extract_from_url`: the URL names a tar.gz archive,
      so the gate passes, but the downloaded file is called `download`, and
      the extraction refuses it as an unsupported format. */
  lemma UrlFormatDiscarded(x: AsyncExtractor, env: Extraction.Environment,
                           existed0: bool, dest0: Listing, existed1: bool, dest1: Listing, inner: Outcome<ArchiveError>)
    requires x.inner.format == None
    requires Extraction.ExtractBehaviour(x.inner.stripRootDir, x.inner.format, Paths.FromStr("download"), env,
                                         existed0, dest0, existed1, dest1, inner)
    ensures UrlGate(x.inner.format, Url("https", "example.com", "/test.tar.gz", None, None)).Pass?
    ensures inner == Fail(UnsupportedFormat("download"))
    ensures existed1 == existed0 && dest1 == dest0
  {
    TestUrlIsTarGz();
    DownloadIsUnrecognised();
  }

  /** With the format forwarded, a URL that passes the gate fixes the format,
      so the extraction never fails with `UnsupportedFormat`, whatever the
      archive file is called. */
  lemma ForwardedFormatIsNeverUnsupported(x: AsyncExtractor, url: Url, archivePath: Paths.Path, env: Extraction.Environment,
                                          existed0: bool, dest0: Listing, existed1: bool, dest1: Listing, inner: Outcome<ArchiveError>)
    requires UrlGate(x.inner.format, url).Pass?
    requires Extraction.ExtractBehaviour(x.inner.stripRootDir, UrlFormat(x.inner.format, url), archivePath, env,
                                         existed0, dest0, existed1, dest1, inner)
    ensures inner.Fail? ==> !inner.error.UnsupportedFormat?
  {
    var f := UrlFormat(x.inner.format, url).value;
    if env.createDestination.Pass? {
      FamilyNeverUnsupported(Extraction.RouteOf(f), x.inner.stripRootDir, env, if existed0 then dest0 else map[], dest1, inner);
    }
  }
}

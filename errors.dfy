/** The error taxonomy of the archive crate and its display texts. */
module Errors {
  import Paths

  /** A `std::io::Error`, known here only by its display text. */
  datatype IoError = IoError(message: string)

  /** `ArchiveError`. */
  datatype ArchiveError =
    | Io(source: IoError)
    | UnsupportedFormat(filename: string)
    | TarExtraction(message: string)
    | ZipExtraction(message: string)
    | SevenZipExtraction(message: string)
    | TempDirCreation(reason: string)
    | FormatDetection(context: string, reason: string)
    | EmptyArchive
    | RootDirectoryStripping(path: Paths.Path, reason: string)

  const IoPrefix := "I/O error: "
  const UnsupportedPrefix := "Unsupported archive format for file: "
  const TarPrefix := "Failed to extract tar archive: "
  const ZipPrefix := "Failed to extract zip archive: "
  const SevenZipPrefix := "Failed to extract 7z archive: "
  const TempDirPrefix := "Failed to create temporary directory: "
  /** The text of `EmptyArchive`, written as two literals: the verifier cannot
      read a character out of a single literal this long. */
  const EmptyArchiveText := "Archive appears to be empty" + " or contains no extractable content"

  /** The `Display` text of each error. */
  function Display(e: ArchiveError): string {
    match e
    case Io(source) => IoPrefix + source.message
    case UnsupportedFormat(filename) => UnsupportedPrefix + filename
    case TarExtraction(message) => TarPrefix + message
    case ZipExtraction(message) => ZipPrefix + message
    case SevenZipExtraction(message) => SevenZipPrefix + message
    case TempDirCreation(reason) => TempDirPrefix + reason
    case FormatDetection(context, reason) => "Could not detect archive format from " + context + ": " + reason
    case EmptyArchive => EmptyArchiveText
    case RootDirectoryStripping(path, reason) =>
      "Failed to strip root directory from " + Paths.Display(path) + ": " + reason
  }

  /** `From<io::Error>`: how `?` turns a filesystem failure into an archive error. */
  function FromIo(source: IoError): (e: ArchiveError)
    ensures e.Io? && e.source == source
    ensures Display(e) == "I/O error: " + source.message
  {
    Io(source)
  }

  /** `ArchiveError::unsupported_format`. */
  function UnsupportedFormatError(filename: string): (e: ArchiveError)
    ensures e.UnsupportedFormat? && e.filename == filename
    ensures Display(e) == "Unsupported archive format for file: " + filename
  {
    UnsupportedFormat(filename)
  }

  /** `ArchiveError::tar_extraction`. */
  function TarExtractionError(message: string): (e: ArchiveError)
    ensures e.TarExtraction? && e.message == message
    ensures Display(e) == "Failed to extract tar archive: " + message
  {
    TarExtraction(message)
  }

  /** `ArchiveError::zip_extraction`. */
  function ZipExtractionError(message: string): (e: ArchiveError)
    ensures e.ZipExtraction? && e.message == message
    ensures Display(e) == "Failed to extract zip archive: " + message
  {
    ZipExtraction(message)
  }

  /** `ArchiveError::sevenz_extraction`. */
  function SevenZipExtractionError(message: string): (e: ArchiveError)
    ensures e.SevenZipExtraction? && e.message == message
    ensures Display(e) == "Failed to extract 7z archive: " + message
  {
    SevenZipExtraction(message)
  }

  /** `ArchiveError::format_detection`: context first, reason second. */
  function FormatDetectionError(context: string, reason: string): (e: ArchiveError)
    ensures e.FormatDetection? && e.context == context && e.reason == reason
    ensures Display(e) == "Could not detect archive format from " + context + ": " + reason
  {
    FormatDetection(context, reason)
  }

  /** `ArchiveError::root_directory_stripping`. */
  function RootDirectoryStrippingError(path: Paths.Path, reason: string): (e: ArchiveError)
    ensures e.RootDirectoryStripping? && e.path == path && e.reason == reason
    ensures Display(e) == "Failed to strip root directory from " + Paths.Display(path) + ": " + reason
  {
    RootDirectoryStripping(path, reason)
  }

  /** The errors whose text is a fixed prefix followed by a single field (or
      a fixed text alone). */
  predicate HasSingleField(e: ArchiveError) {
    !e.FormatDetection? && !e.RootDirectoryStripping?
  }

  /** The prefix of a single-field error's text, and its field. */
  function PrefixAndField(e: ArchiveError): (string, string)
    requires HasSingleField(e)
  {
    match e
    case Io(source) => (IoPrefix, source.message)
    case UnsupportedFormat(filename) => (UnsupportedPrefix, filename)
    case TarExtraction(message) => (TarPrefix, message)
    case ZipExtraction(message) => (ZipPrefix, message)
    case SevenZipExtraction(message) => (SevenZipPrefix, message)
    case TempDirCreation(reason) => (TempDirPrefix, reason)
    case EmptyArchive => (EmptyArchiveText, "")
  }

  /** Reads back which prefix a text starts with, by the characters at which
      the prefixes differ. */
  function PrefixOfText(text: string): string {
    if |text| == 0 then ""
    else if text[0] == 'I' then IoPrefix
    else if text[0] == 'U' then UnsupportedPrefix
    else if text[0] == 'A' then EmptyArchiveText
    else if |text| <= 18 then ""
    else if text[10] == 'c' then TempDirPrefix
    else if text[18] == 't' then TarPrefix
    else if text[18] == 'z' then ZipPrefix
    else SevenZipPrefix
  }

  lemma DisplayIsPrefixAndField(e: ArchiveError)
    requires HasSingleField(e)
    ensures Display(e) == PrefixAndField(e).0 + PrefixAndField(e).1
  {
    if e.EmptyArchive? {
      assert EmptyArchiveText + "" == EmptyArchiveText;
    }
  }

  lemma PrefixOfDisplay(e: ArchiveError)
    requires HasSingleField(e)
    ensures PrefixOfText(Display(e)) == PrefixAndField(e).0
  {
    DisplayIsPrefixAndField(e);
    var (p, f) := PrefixAndField(e);
    var d := p + f;
    assert d[0] == p[0];
    match e
    case TarExtraction(_) => assert d[10] == p[10] && d[18] == p[18];
    case ZipExtraction(_) => assert d[10] == p[10] && d[18] == p[18];
    case SevenZipExtraction(_) => assert d[10] == p[10] && d[18] == p[18];
    case TempDirCreation(_) => assert d[10] == p[10];
    case Io(_) => assert p[0] == 'I';
    case UnsupportedFormat(_) => assert p[0] == 'U';
    case EmptyArchive => assert p[0] == 'A';
  }

  /** A single-field error is determined by its text: the prefix tells the
      kind, and the field is what follows the prefix. */
  lemma DisplayIdentifiesError(e1: ArchiveError, e2: ArchiveError)
    requires HasSingleField(e1) && HasSingleField(e2)
    requires Display(e1) == Display(e2)
    ensures e1 == e2
  {
    PrefixOfDisplay(e1);
    PrefixOfDisplay(e2);
    DisplayIsPrefixAndField(e1);
    DisplayIsPrefixAndField(e2);
    var (p1, f1) := PrefixAndField(e1);
    var (p2, f2) := PrefixAndField(e2);
    assert p1 == p2;
    assert f1 == Display(e1)[|p1|..] == f2;
    SameKindSameField(e1, e2);
  }

  lemma SameKindSameField(e1: ArchiveError, e2: ArchiveError)
    requires HasSingleField(e1) && HasSingleField(e2)
    requires PrefixAndField(e1) == PrefixAndField(e2)
    ensures e1 == e2
  {
  }
}

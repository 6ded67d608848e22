/** The format catalogue: which archive format a file name, path or URL
    names, decided by its (case-insensitive) suffix. */
module Format {
  import opened Wrappers
  import Paths

  /** The closed set of supported archive formats (the `sevenz` build
      feature is taken as enabled, so SevenZip is always present). */
  datatype ArchiveFormat = Tar | TarGz | TarBz2 | TarXz | TarLzma | TarZst | Zip | SevenZip

  /** ASCII lower-casing of one character. */
  function LowerChar(c: char): char {
    if 'A' <= c <= 'Z' then (c as int - 'A' as int + 'a' as int) as char else c
  }

  /** `str::to_lowercase`, restricted to ASCII letters. */
  function ToLower(s: string): (r: string)
    ensures |r| == |s|
  {
    seq(|s|, i requires 0 <= i < |s| => LowerChar(s[i]))
  }

  /** `str::ends_with`. */
  predicate EndsWith(s: string, suffix: string) {
    |suffix| <= |s| && s[|s| - |suffix|..] == suffix
  }

  /** `ArchiveFormat::detect_from_filename`: lower-case the name, then test the
      suffix groups from the most specific to the least specific and return the
      first that matches. */
  function DetectFromFilename(filename: string): Option<ArchiveFormat> {
    var name := ToLower(filename);
    if EndsWith(name, ".tar.gz") || EndsWith(name, ".tgz") || EndsWith(name, ".taz") then
      Some(TarGz)
    else if EndsWith(name, ".tar.bz2") || EndsWith(name, ".tbz") || EndsWith(name, ".tbz2")
         || EndsWith(name, ".tz2") then
      Some(TarBz2)
    else if EndsWith(name, ".tar.xz") || EndsWith(name, ".txz") then
      Some(TarXz)
    else if EndsWith(name, ".tar.lzma") || EndsWith(name, ".tlz") then
      Some(TarLzma)
    else if EndsWith(name, ".tar.zst") || EndsWith(name, ".tzst") then
      Some(TarZst)
    else if EndsWith(name, ".tar") then
      Some(Tar)
    else if EndsWith(name, ".zip") then
      Some(Zip)
    else if EndsWith(name, ".7z") then
      Some(SevenZip)
    else
      None
  }

  /** `ArchiveFormat::extensions`: the typical suffixes of each format. */
  function Extensions(f: ArchiveFormat): (r: seq<string>)
    ensures |r| > 0
    ensures forall i :: 0 <= i < |r| ==> |r[i]| >= 3 && r[i][0] == '.'
  {
    match f
    case Tar => [".tar"]
    case TarGz => [".tar.gz", ".tgz", ".taz"]
    case TarBz2 => [".tar.bz2", ".tbz", ".tbz2", ".tz2"]
    case TarXz => [".tar.xz", ".txz"]
    case TarLzma => [".tar.lzma", ".tlz"]
    case TarZst => [".tar.zst", ".tzst"]
    case Zip => [".zip"]
    case SevenZip => [".7z"]
  }

  /** The order in which `DetectFromFilename` tests the suffix groups. */
  const DetectionOrder: seq<ArchiveFormat> := [TarGz, TarBz2, TarXz, TarLzma, TarZst, Tar, Zip, SevenZip]

  /** The (already lower-cased) name ends with one of the extensions of `f`. */
  predicate HasExtensionOf(name: string, f: ArchiveFormat) {
    exists e :: e in Extensions(f) && EndsWith(name, e)
  }

  /** Reference definition: the first format of `order` one of whose
      extensions ends the name. */
  function FirstMatch(order: seq<ArchiveFormat>, name: string): Option<ArchiveFormat> {
    if order == [] then None
    else if HasExtensionOf(name, order[0]) then Some(order[0])
    else FirstMatch(order[1..], name)
  }

  /** `ArchiveFormat::name`: the human-readable name. */
  function Name(f: ArchiveFormat): (r: string)
    ensures |r| >= 2
    ensures forall i :: 0 <= i < |r| ==> !('a' <= r[i] <= 'z')
  {
    match f
    case Tar => "TAR"
    case TarGz => "TAR.GZ"
    case TarBz2 => "TAR.BZ2"
    case TarXz => "TAR.XZ"
    case TarLzma => "TAR.LZMA"
    case TarZst => "TAR.ZST"
    case Zip => "ZIP"
    case SevenZip => "7Z"
  }

  /** `ArchiveFormat::is_tar_based`. */
  predicate IsTarBased(f: ArchiveFormat)
    ensures IsTarBased(f) <==> StartsWithTar(Extensions(f)[0])
  {
    TarPrefixOfPrimaryExtension(f);
    f in {Tar, TarGz, TarBz2, TarXz, TarLzma, TarZst}
  }

  /** The text starts with `.tar`. */
  predicate StartsWithTar(e: string) {
    |e| >= 4 && e[..4] == ".tar"
  }

  /** The primary extension starts with `.tar` exactly for the six tar formats. */
  lemma TarPrefixOfPrimaryExtension(f: ArchiveFormat)
    ensures StartsWithTar(Extensions(f)[0]) <==> f in {Tar, TarGz, TarBz2, TarXz, TarLzma, TarZst}
  {
    match f
    case Tar => assert ".tar"[..4] == ".tar";
    case TarGz => assert ".tar.gz"[..4] == ".tar";
    case TarBz2 => assert ".tar.bz2"[..4] == ".tar";
    case TarXz => assert ".tar.xz"[..4] == ".tar";
    case TarLzma => assert ".tar.lzma"[..4] == ".tar";
    case TarZst => assert ".tar.zst"[..4] == ".tar";
    case Zip => assert ".zip"[1] != ".tar"[1];
    case SevenZip =>
  }

  /** `ArchiveFormat::detect_from_path`: classify the path's file name, when it
      has one and it is valid UTF-8. */
  function DetectFromPath(path: Paths.Path): (r: Option<ArchiveFormat>)
    ensures r.Some? ==> && Paths.FileName(path).Some?
                        && Paths.IsUtf8(Paths.FileName(path).value)
                        && r == DetectFromFilename(Paths.Display(Paths.FileName(path).value))
  {
    match Paths.FileName(path)
    case None => None
    case Some(name) =>
      match Paths.ToStr(name)
      case None => None
      case Some(text) =>
        Paths.DisplayOfUtf8(name);
        DetectFromFilename(text)
  }

  /** A parsed URL; only its path takes part in detection. */
  datatype Url = Url(scheme: string, host: string, path: string, query: Option<string>, fragment: Option<string>)

  /** The URL as `Display` prints it. */
  function Serialization(url: Url): (r: string)
    ensures var origin := url.scheme + "://" + url.host + url.path;
            |origin| <= |r| && r[..|origin|] == origin
    ensures url.fragment.Some? ==> EndsWith(r, "#" + url.fragment.value)
  {
    url.scheme + "://" + url.host + url.path
    + (if url.query.Some? then "?" + url.query.value else "")
    + (if url.fragment.Some? then "#" + url.fragment.value else "")
  }

  /** `ArchiveFormat::detect_from_url`: classify the file name of the URL's path. */
  function DetectFromUrl(url: Url): (r: Option<ArchiveFormat>)
    ensures r.Some? ==> var name := Paths.FileName(Paths.FromStr(url.path));
                        name.Some? && r == DetectFromFilename(Paths.Display(name.value))
  {
    DetectFromPath(Paths.FromStr(url.path))
  }

  // ---------------------------------------------------------------------
  // Lower-casing

  /** ASCII upper-casing of one character (used to state case-insensitivity). */
  function UpperChar(c: char): char {
    if 'a' <= c <= 'z' then (c as int - 'a' as int + 'A' as int) as char else c
  }

  function ToUpper(s: string): (r: string)
    ensures |r| == |s|
  {
    seq(|s|, i requires 0 <= i < |s| => UpperChar(s[i]))
  }

  lemma LowerCharOfCase(c: char)
    ensures LowerChar(LowerChar(c)) == LowerChar(c)
    ensures LowerChar(UpperChar(c)) == LowerChar(c)
  {
  }

  /** Lower-casing is idempotent and forgets upper-casing. */
  lemma ToLowerOfCase(s: string)
    ensures ToLower(ToLower(s)) == ToLower(s)
    ensures ToLower(ToUpper(s)) == ToLower(s)
  {
    forall i | 0 <= i < |s|
      ensures ToLower(ToLower(s))[i] == ToLower(s)[i]
      ensures ToLower(ToUpper(s))[i] == ToLower(s)[i]
    {
      LowerCharOfCase(s[i]);
    }
  }

  lemma ToLowerConcat(s: string, t: string)
    ensures ToLower(s + t) == ToLower(s) + ToLower(t)
  {
    assert forall i :: 0 <= i < |s + t| ==> ToLower(s + t)[i] == (ToLower(s) + ToLower(t))[i];
  }

  /** Detection is case-insensitive: a name, its lower-case and its upper-case
      form are classified alike. */
  lemma DetectIgnoresCase(s: string)
    ensures DetectFromFilename(ToLower(s)) == DetectFromFilename(s)
    ensures DetectFromFilename(ToUpper(s)) == DetectFromFilename(s)
  {
    ToLowerOfCase(s);
  }

  // ---------------------------------------------------------------------
  // The extension table

  /** The two-character endings of each format's extensions. */
  function Endings(f: ArchiveFormat): set<string> {
    match f
    case Tar => {"ar"}
    case TarGz => {"gz", "az"}
    case TarBz2 => {"z2", "bz"}
    case TarXz => {"xz"}
    case TarLzma => {"ma", "lz"}
    case TarZst => {"st"}
    case Zip => {"ip"}
    case SevenZip => {"7z"}
  }

  lemma EndingsOfExtensions(f: ArchiveFormat, e: string)
    requires e in Extensions(f)
    ensures |e| >= 3 && e[|e| - 2..] in Endings(f)
  {
  }

  lemma EndingsDisjoint(f: ArchiveFormat, g: ArchiveFormat)
    requires f != g
    ensures Endings(f) !! Endings(g)
  {
  }

  /** Two suffixes of one string: the shorter is a suffix of the longer. */
  lemma SuffixOfSuffix(s: string, a: string, b: string)
    requires EndsWith(s, a) && EndsWith(s, b) && |a| <= |b|
    ensures EndsWith(b, a)
  {
    assert b[|b| - |a|..] == s[|s| - |a|..];
  }

  /** No extension of one format is a suffix of an extension of another. */
  lemma ExtensionsSuffixFree(f: ArchiveFormat, g: ArchiveFormat, a: string, b: string)
    requires f != g && a in Extensions(f) && b in Extensions(g)
    ensures !EndsWith(b, a)
  {
    EndingsOfExtensions(f, a);
    EndingsOfExtensions(g, b);
    EndingsDisjoint(f, g);
    EndingsDiffer(b, a);
  }

  lemma EndingsDiffer(b: string, a: string)
    requires |a| >= 2 && |b| >= 2 && b[|b| - 2..] != a[|a| - 2..]
    ensures !EndsWith(b, a)
  {
    if |a| <= |b| {
      assert b[|b| - |a|..][|a| - 2..] == b[|b| - 2..];
    }
  }

  /** At most one format's extensions end a given name, so the order in which
      the groups are tested cannot change the answer. */
  lemma AtMostOneFormat(name: string, f: ArchiveFormat, g: ArchiveFormat)
    requires HasExtensionOf(name, f) && HasExtensionOf(name, g)
    ensures f == g
  {
    if f != g {
      var a :| a in Extensions(f) && EndsWith(name, a);
      var b :| b in Extensions(g) && EndsWith(name, b);
      if |a| <= |b| {
        SuffixOfSuffix(name, a, b);
        ExtensionsSuffixFree(f, g, a, b);
      } else {
        SuffixOfSuffix(name, b, a);
        ExtensionsSuffixFree(g, f, b, a);
      }
    }
  }

  lemma HasExtensionOfUnfold(name: string, f: ArchiveFormat)
    ensures HasExtensionOf(name, f) <==>
      match f
      case Tar => EndsWith(name, ".tar")
      case TarGz => EndsWith(name, ".tar.gz") || EndsWith(name, ".tgz") || EndsWith(name, ".taz")
      case TarBz2 => EndsWith(name, ".tar.bz2") || EndsWith(name, ".tbz") || EndsWith(name, ".tbz2")
                     || EndsWith(name, ".tz2")
      case TarXz => EndsWith(name, ".tar.xz") || EndsWith(name, ".txz")
      case TarLzma => EndsWith(name, ".tar.lzma") || EndsWith(name, ".tlz")
      case TarZst => EndsWith(name, ".tar.zst") || EndsWith(name, ".tzst")
      case Zip => EndsWith(name, ".zip")
      case SevenZip => EndsWith(name, ".7z")
  {
  }

  /** Detection returns the first format, in `DetectionOrder`, one of whose
      extensions ends the lower-cased name. */
  lemma DetectIsFirstMatch(s: string)
    ensures DetectFromFilename(s) == FirstMatch(DetectionOrder, ToLower(s))
  {
    var name := ToLower(s);
    HasExtensionOfUnfold(name, TarGz);
    HasExtensionOfUnfold(name, TarBz2);
    HasExtensionOfUnfold(name, TarXz);
    HasExtensionOfUnfold(name, TarLzma);
    HasExtensionOfUnfold(name, TarZst);
    HasExtensionOfUnfold(name, Tar);
    HasExtensionOfUnfold(name, Zip);
    HasExtensionOfUnfold(name, SevenZip);
    FirstMatchCons(TarGz, [TarBz2, TarXz, TarLzma, TarZst, Tar, Zip, SevenZip], name);
    FirstMatchCons(TarBz2, [TarXz, TarLzma, TarZst, Tar, Zip, SevenZip], name);
    FirstMatchCons(TarXz, [TarLzma, TarZst, Tar, Zip, SevenZip], name);
    FirstMatchCons(TarLzma, [TarZst, Tar, Zip, SevenZip], name);
    FirstMatchCons(TarZst, [Tar, Zip, SevenZip], name);
    FirstMatchCons(Tar, [Zip, SevenZip], name);
    FirstMatchCons(Zip, [SevenZip], name);
    FirstMatchCons(SevenZip, [], name);
  }

  lemma FirstMatchCons(f: ArchiveFormat, rest: seq<ArchiveFormat>, name: string)
    ensures FirstMatch([f] + rest, name) == if HasExtensionOf(name, f) then Some(f) else FirstMatch(rest, name)
  {
    assert ([f] + rest)[1..] == rest;
  }

  lemma {:induction false} FirstMatchFound(order: seq<ArchiveFormat>, name: string)
    ensures FirstMatch(order, name).Some? ==>
      FirstMatch(order, name).value in order && HasExtensionOf(name, FirstMatch(order, name).value)
    ensures (exists i :: 0 <= i < |order| && HasExtensionOf(name, order[i])) ==> FirstMatch(order, name).Some?
    decreases |order|
  {
    if order != [] {
      FirstMatchFound(order[1..], name);
      if !HasExtensionOf(name, order[0]) && exists i :: 0 <= i < |order| && HasExtensionOf(name, order[i]) {
        var i :| 0 <= i < |order| && HasExtensionOf(name, order[i]);
        assert order[1..][i - 1] == order[i];
      }
    }
  }

  lemma EveryFormatIsTested(f: ArchiveFormat)
    ensures f in DetectionOrder
  {
  }

  /** Detection and `extensions()` agree in both directions: a name is
      classified as `f` exactly when its lower-cased form ends with one of the
      extensions of `f`. */
  lemma DetectExactly(s: string, f: ArchiveFormat)
    ensures DetectFromFilename(s) == Some(f) <==> HasExtensionOf(ToLower(s), f)
  {
    var name := ToLower(s);
    DetectIsFirstMatch(s);
    FirstMatchFound(DetectionOrder, name);
    EveryFormatIsTested(f);
    if HasExtensionOf(name, f) {
      var i :| 0 <= i < |DetectionOrder| && DetectionOrder[i] == f;
      AtMostOneFormat(name, f, FirstMatch(DetectionOrder, name).value);
    }
  }

  /** Detection yields None exactly when the lower-cased name ends with none of
      the listed extensions. */
  lemma DetectNoneExactly(s: string)
    ensures DetectFromFilename(s) == None <==> forall f :: !HasExtensionOf(ToLower(s), f)
  {
    forall f { DetectExactly(s, f); }
  }

  /** Every listed extension starts with a dot, so a name without a dot is
      never classified. */
  lemma DetectNeedsDot(s: string)
    requires '.' !in s
    ensures DetectFromFilename(s) == None
  {
    var name := ToLower(s);
    forall f, e | e in Extensions(f)
      ensures !EndsWith(name, e)
    {
      assert e[0] == '.';
      if |e| <= |name| {
        var k := |name| - |e|;
        assert s[k] != '.';
        assert name[k..][0] == name[k] == LowerChar(s[k]) != '.';
      }
    }
    DetectNoneExactly(s);
  }

  lemma ExtensionsAreLowerCase(f: ArchiveFormat, e: string)
    requires e in Extensions(f)
    ensures ToLower(e) == e
  {
    assert forall i :: 0 <= i < |e| ==> LowerChar(e[i]) == e[i];
  }

  /** Round trip with `extensions()`: any name ending with an extension of `f`,
      in any case, is classified as `f`. So `.tar.gz`, `.tgz` and `.taz` names
      are TarGz and never Tar. */
  lemma DetectAppendedExtension(prefix: string, suffix: string, f: ArchiveFormat)
    requires ToLower(suffix) in Extensions(f)
    ensures DetectFromFilename(prefix + suffix) == Some(f)
  {
    var e := ToLower(suffix);
    ToLowerConcat(prefix, suffix);
    var name := ToLower(prefix) + e;
    assert name[|name| - |e|..] == e;
    DetectExactly(prefix + suffix, f);
  }

  /** The display name is the primary extension, upper-cased and without its dot. */
  lemma NameIsPrimaryExtension(f: ArchiveFormat)
    ensures "." + ToLower(Name(f)) == Extensions(f)[0]
  {
    var n := Name(f);
    assert forall i :: 0 <= i < |n| ==> LowerChar(n[i]) == Extensions(f)[0][i + 1];
  }

  /** A file named after a format's display name is detected as that format. */
  lemma DetectNamedAfterFormat(prefix: string, f: ArchiveFormat)
    ensures DetectFromFilename(prefix + "." + Name(f)) == Some(f)
  {
    NameIsPrimaryExtension(f);
    ToLowerConcat(".", Name(f));
    assert ToLower(".") == ".";
    assert prefix + "." + Name(f) == prefix + ("." + Name(f));
    DetectAppendedExtension(prefix, "." + Name(f), f);
  }

  /** Distinct formats have distinct names. */
  lemma NameInjective(f: ArchiveFormat, g: ArchiveFormat)
    requires Name(f) == Name(g)
    ensures f == g
  {
  }

  /** The tar-based formats are exactly those whose suffixes all begin `.t`;
      Zip and SevenZip are not tar-based. */
  lemma TarBasedExactly(f: ArchiveFormat)
    ensures IsTarBased(f) <==> f != Zip && f != SevenZip
    ensures IsTarBased(f) <==> forall e :: e in Extensions(f) ==> e[..2] == ".t"
  {
    if IsTarBased(f) {
      forall e | e in Extensions(f)
        ensures e[..2] == ".t"
      {
        assert e[0] == '.';
        match f
        case Tar => assert e == ".tar";
        case TarGz => assert e == ".tar.gz" || e == ".tgz" || e == ".taz";
        case TarBz2 => assert e == ".tar.bz2" || e == ".tbz" || e == ".tbz2" || e == ".tz2";
        case TarXz => assert e == ".tar.xz" || e == ".txz";
        case TarLzma => assert e == ".tar.lzma" || e == ".tlz";
        case TarZst => assert e == ".tar.zst" || e == ".tzst";
      }
    } else {
      var e := Extensions(f)[0];
      assert e in Extensions(f);
      assert e[..2][1] == e[1] != 't';
    }
  }

  // ---------------------------------------------------------------------
  // Paths and URLs

  /** Only the final component of a path is classified: `dir/name` is
      detected as `name` is, whatever `dir` holds. */
  lemma DetectFromPathUsesFileName(dir: Paths.Path, name: string)
    requires Paths.IsNormalComponent(Paths.FromStr(name))
    ensures DetectFromPath(dir + [Paths.Separator] + Paths.FromStr(name)) == DetectFromFilename(name)
    ensures DetectFromPath(Paths.FromStr(name)) == DetectFromFilename(name)
  {
    Paths.FileNameOfJoin(dir, Paths.FromStr(name));
    Paths.FileNameOfName(Paths.FromStr(name));
    Paths.ToStrFromStr(name);
  }

  /** A path without a file name, or whose file name is not valid UTF-8,
      is not classified. */
  lemma DetectFromPathNeedsUtf8FileName(path: Paths.Path)
    requires Paths.FileName(path).None? || !Paths.IsUtf8(Paths.FileName(path).value)
    ensures DetectFromPath(path) == None
  {
  }

  /** The query and fragment of a URL do not take part in detection. */
  lemma DetectFromUrlIgnoresQuery(url: Url, query: Option<string>, fragment: Option<string>)
    ensures DetectFromUrl(url.(query := query, fragment := fragment)) == DetectFromUrl(url)
  {
  }

  // The classifications the crate's own tests expect.

  lemma DetectUpperCaseExample()
    ensures DetectFromFilename("FILE.TAR.GZ") == Some(TarGz)
  {
    assert ToLower(".TAR.GZ") == ".tar.gz";
    assert "FILE.TAR.GZ" == "FILE" + ".TAR.GZ";
    DetectAppendedExtension("FILE", ".TAR.GZ", TarGz);
  }

  lemma DetectMixedCaseExample()
    ensures DetectFromFilename("File.Zip") == Some(Zip)
  {
    assert ToLower(".Zip") == ".zip";
    assert "File.Zip" == "File" + ".Zip";
    DetectAppendedExtension("File", ".Zip", Zip);
  }

  /** A name whose last two (lower-cased) characters end no extension is
      never classified. */
  lemma DetectByEnding(s: string)
    requires |s| >= 2
    requires forall f :: ToLower(s)[|s| - 2..] !in Endings(f)
    ensures DetectFromFilename(s) == None
  {
    var name := ToLower(s);
    forall f, e | e in Extensions(f)
      ensures !EndsWith(name, e)
    {
      EndingsOfExtensions(f, e);
      EndingsDiffer(name, e);
    }
    DetectNoneExactly(s);
  }

  lemma DetectUnknownExample()
    ensures DetectFromFilename("file.txt") == None
  {
    var name := "file.txt";
    assert ToLower(name)[6..] == [LowerChar('x'), LowerChar('t')] == "xt";
    DetectByEnding(name);
  }

  /** The URL examples of the crate's tests: the path decides, the query does not. */
  lemma DetectFromUrlExample()
    ensures DetectFromUrl(Url("https", "example.com", "/file.zip", Some("query=param"), None)) == Some(Zip)
  {
    assert "file.zip" == "file" + ".zip";
    assert "/file.zip" == "/" + "file.zip";
    RootedPathExample("file.zip", "file", ".zip", Zip);
  }

  /** A file name directly under the root. */
  lemma RootedPathExample(name: string, stem: string, ext: string, f: ArchiveFormat)
    requires name == stem + ext && ext in Extensions(f) && '/' !in name
    ensures DetectFromPath(Paths.FromStr("/" + name)) == Some(f)
  {
    assert "" + "/" + name == "/" + name;
    Paths.FromStrOfJoin("", name);
    JoinedNameExample([], name, stem, ext, f);
  }

  /** A file name below a directory given as text. */
  lemma UrlPathExample(dir: string, name: string, stem: string, ext: string, f: ArchiveFormat)
    requires name == stem + ext && ext in Extensions(f) && '/' !in name
    ensures DetectFromPath(Paths.FromStr(dir + "/" + name)) == Some(f)
  {
    Paths.FromStrOfJoin(dir, name);
    JoinedNameExample(Paths.FromStr(dir), name, stem, ext, f);
  }

  /** A file name ending in an extension of `f`, joined below any directory,
      is detected as `f`. */
  lemma JoinedNameExample(dir: Paths.Path, name: string, stem: string, ext: string, f: ArchiveFormat)
    requires name == stem + ext && ext in Extensions(f) && '/' !in name
    ensures DetectFromPath(dir + [Paths.Separator] + Paths.FromStr(name)) == Some(f)
  {
    var n := Paths.FromStr(name);
    assert Paths.Separator !in n by {
      forall i | 0 <= i < |n| ensures n[i] != Paths.Separator { assert name[i] != '/'; }
    }
    assert |name| >= 3;
    assert n != [Paths.Utf8('.')] && n != [Paths.Utf8('.'), Paths.Utf8('.')];
    DetectFromPathUsesFileName(dir, name);
    ExtensionsAreLowerCase(f, ext);
    DetectAppendedExtension(stem, ext, f);
  }
}

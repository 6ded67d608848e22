/** The crate-root predicates `is_archive` and `is_tarball`. */
module Archive {
  import opened Wrappers
  import opened Format

  /** `is_archive`: the name has a known archive extension. */
  predicate IsArchive(filename: string) {
    DetectFromFilename(filename).Some?
  }

  /** `is_tarball`: the detected format is one of the six tar variants
      (listed one by one, independently of `is_tar_based`). */
  predicate IsTarball(filename: string) {
    DetectFromFilename(filename) in {Some(Tar), Some(TarGz), Some(TarBz2), Some(TarXz), Some(TarZst), Some(TarLzma)}
  }

  /** A name is an archive exactly when its lower-cased form ends with an
      extension of some format. */
  lemma IsArchiveExactly(filename: string)
    ensures IsArchive(filename) <==> exists f :: HasExtensionOf(ToLower(filename), f)
  {
    DetectNoneExactly(filename);
  }

  /** A tarball is an archive whose detected format is tar-based. */
  lemma IsTarballExactly(filename: string)
    ensures IsTarball(filename) <==> IsArchive(filename) && IsTarBased(DetectFromFilename(filename).value)
  {
  }

  /** Every tarball is an archive; names detected as Zip or SevenZip, and
      unrecognised names, are not tarballs. */
  lemma IsTarballImpliesIsArchive(filename: string)
    ensures IsTarball(filename) ==> IsArchive(filename)
    ensures DetectFromFilename(filename) in {None, Some(Zip), Some(SevenZip)} ==> !IsTarball(filename)
  {
  }

  /** Both predicates are case-insensitive. */
  lemma PredicatesIgnoreCase(filename: string)
    ensures IsArchive(ToUpper(filename)) == IsArchive(filename) == IsArchive(ToLower(filename))
    ensures IsTarball(ToUpper(filename)) == IsTarball(filename) == IsTarball(ToLower(filename))
  {
    DetectIgnoresCase(filename);
  }

  /** A name ending (in any case) with an extension of `f` is an archive, and
      is a tarball exactly when `f` is tar-based. */
  lemma PredicatesOfExtension(prefix: string, suffix: string, f: ArchiveFormat)
    requires ToLower(suffix) in Extensions(f)
    ensures IsArchive(prefix + suffix)
    ensures IsTarball(prefix + suffix) <==> IsTarBased(f)
  {
    DetectAppendedExtension(prefix, suffix, f);
  }
}

/** The part of the filesystem the extractor changes: the destination
    directory, as a tree of named entries. */
module FileSystem {
  import opened Wrappers
  import opened Errors

  /** A directory entry: a regular file with its bytes, or a directory. */
  datatype Entry = File(data: seq<bv8>) | Dir(children: Listing)

  /** The contents of one directory, by entry name. */
  type Listing = map<string, Entry>

  /** The entries of `m` whose names are in `names`. */
  function Restrict(m: Listing, names: set<string>): (r: Listing)
    ensures r.Keys == m.Keys * names
    ensures forall k :: k in r ==> r[k] == m[k]
  {
    map k | k in m && k in names :: m[k]
  }

  /** A listing with one entry has one name. */
  lemma SoleKey(m: Listing, a: string, b: string)
    requires |m| == 1 && a in m && b in m
    ensures a == b
  {
    if a != b {
      assert {a, b} <= m.Keys;
      SubsetCardinality({a, b}, m.Keys);
    }
  }

  /** Adding a one-entry listing is updating that entry. */
  lemma UnionWithSingleton(m: Listing, single: Listing, name: string)
    requires single.Keys == {name}
    ensures m + single == m[name := single[name]]
  {
  }

  /** Restricting to one more name adds that name's entry. */
  lemma RestrictInsert(m: Listing, names: set<string>, name: string)
    requires name in m
    ensures Restrict(m, names + {name}) == Restrict(m, names)[name := m[name]]
  {
  }

  /** Updating an entry after a union is updating it in the added listing. */
  lemma UnionUpdate(m: Listing, added: Listing, name: string, e: Entry)
    ensures m + added[name := e] == (m + added)[name := e]
  {
  }

  lemma SubsetCardinality(s: set<string>, t: set<string>)
    requires s <= t
    ensures |s| <= |t|
  {
    assert t == s + (t - s);
  }

  /** The destination directory: whether it exists and what it holds. */
  class Disk {
    var destExists: bool
    var dest: Listing

    constructor(destExists: bool, dest: Listing)
      ensures this.destExists == destExists && this.dest == dest
    {
      this.destExists := destExists;
      this.dest := dest;
    }

    /** `create_dir_all(destination)`: `outcome` is what the filesystem
        answers. An existing directory keeps its contents; a new one is
        empty. */
    method CreateDirAll(outcome: Outcome<IoError>) returns (r: Outcome<ArchiveError>)
      modifies this
      ensures outcome.Fail? ==> r == Fail(Io(outcome.error)) && destExists == old(destExists) && dest == old(dest)
      ensures outcome.Pass? ==> r == Pass && destExists && dest == (if old(destExists) then old(dest) else map[])
    {
      if outcome.Fail? {
        return Fail(FromIo(outcome.error));
      }
      if !destExists {
        dest := map[];
      }
      destExists := true;
      r := Pass;
    }

    /** An unpacker writing `written` straight into the destination: each
        top-level entry it writes replaces the one of the same name. */
    method WriteAll(written: Listing)
      modifies this
      ensures destExists == old(destExists) && dest == old(dest) + written
    {
      dest := dest + written;
    }

    /** `rename(scratch/name, destination/name)` once the filesystem has
        agreed to it. */
    method Rename(name: string, entry: Entry)
      modifies this
      ensures destExists == old(destExists) && dest == old(dest)[name := entry]
    {
      dest := dest[name := entry];
    }
  }
}

/** The part of `std::path` (Unix flavour) the archive crate relies on:
    `Path::file_name`, `OsStr::to_str` and `Path::display`. */
module Paths {
  import opened Wrappers

  /** A byte that cannot stand for itself in UTF-8: ASCII bytes are always
      valid characters, so only the bytes from 0x80 up can be invalid. */
  type HighByte = b: bv8 | b >= 0x80 witness 0x80

  /** One unit of an OS path: a decoded character, or a byte that is not
      part of any valid UTF-8 sequence. */
  datatype Unit = Utf8(c: char) | Invalid(b: HighByte)

  type Path = seq<Unit>

  const Separator: Unit := Utf8('/')

  /** A path made from a Rust `&str`. */
  function FromStr(s: string): (p: Path)
    ensures |p| == |s|
    ensures forall i :: 0 <= i < |s| ==> p[i] == Utf8(s[i])
  {
    seq(|s|, i requires 0 <= i < |s| => Utf8(s[i]))
  }

  predicate IsUtf8(p: Path) {
    forall i :: 0 <= i < |p| ==> p[i].Utf8?
  }

  /** `OsStr::to_str`: the text when every unit is valid UTF-8, otherwise None. */
  function ToStr(p: Path): (r: Option<string>)
    ensures r.Some? <==> IsUtf8(p)
    ensures r.Some? ==> |r.value| == |p| && forall i :: 0 <= i < |p| ==> p[i] == Utf8(r.value[i])
  {
    if IsUtf8(p) then Some(seq(|p|, i requires 0 <= i < |p| && p[i].Utf8? => p[i].c)) else None
  }

  /** `Path::display`: invalid bytes are shown as U+FFFD. */
  function Display(p: Path): (s: string)
    ensures |s| == |p|
    ensures forall i :: 0 <= i < |p| && p[i].Utf8? ==> s[i] == p[i].c
  {
    seq(|p|, i requires 0 <= i < |p| => if p[i].Utf8? then p[i].c else '�')
  }

  /** The units after the last separator (all of `p` when it has none). */
  function LastSegment(p: Path): (s: Path)
    ensures |s| <= |p| && s == p[|p| - |s|..]
    ensures Separator !in s
    ensures |s| < |p| ==> p[|p| - |s| - 1] == Separator
  {
    if p == [] || p[|p| - 1] == Separator then []
    else LastSegment(p[..|p| - 1]) + [p[|p| - 1]]
  }

  /** `Path::file_name`: the last component when it is a normal one.
      Repeated separators and `.` components are skipped as `Path::components`
      does; a path that ends in `..`, or consists only of the root, `.` or
      nothing, has no file name. */
  function FileName(p: Path): (r: Option<Path>)
    decreases |p|
    ensures r.Some? ==> r.value != [] && Separator !in r.value
    ensures r.Some? ==> r.value != [Utf8('.')] && r.value != [Utf8('.'), Utf8('.')]
  {
    var seg := LastSegment(p);
    var rest := p[..|p| - |seg|];
    if seg == [] || seg == [Utf8('.')] then
      if rest == [] then None else FileName(rest[..|rest| - 1])
    else if seg == [Utf8('.'), Utf8('.')] then None
    else Some(seg)
  }

  /** A component that `FileName` reports as it is: non-empty, no separator,
      neither `.` nor `..`. */
  predicate IsNormalComponent(name: Path) {
    name != [] && Separator !in name && name != [Utf8('.')] && name != [Utf8('.'), Utf8('.')]
  }

  lemma {:induction false} LastSegmentOfJoin(dir: Path, name: Path)
    requires Separator !in name
    ensures LastSegment(dir + [Separator] + name) == name
    decreases |name|
  {
    var p := dir + [Separator] + name;
    if name == [] {
    } else {
      var init := name[..|name| - 1];
      assert p[..|p| - 1] == dir + [Separator] + init;
      LastSegmentOfJoin(dir, init);
      assert name == init + [name[|name| - 1]];
    }
  }

  lemma {:induction false} LastSegmentOfName(name: Path)
    requires Separator !in name
    ensures LastSegment(name) == name
    decreases |name|
  {
    if name != [] {
      var init := name[..|name| - 1];
      var last := name[|name| - 1];
      assert last in name;
      assert last != Separator;
      assert Separator !in init;
      LastSegmentOfName(init);
      assert LastSegment(name) == LastSegment(init) + [last];
      assert name == init + [last];
    }
  }

  /** The file name of `dir/name` is `name`, whatever `dir` is. */
  lemma FileNameOfJoin(dir: Path, name: Path)
    requires IsNormalComponent(name)
    ensures FileName(dir + [Separator] + name) == Some(name)
  {
    LastSegmentOfJoin(dir, name);
  }

  /** A bare normal component is its own file name. */
  lemma FileNameOfName(name: Path)
    requires IsNormalComponent(name)
    ensures FileName(name) == Some(name)
  {
    LastSegmentOfName(name);
  }

  /** A trailing separator does not change the file name. */
  lemma FileNameIgnoresTrailingSeparator(p: Path)
    ensures FileName(p + [Separator]) == FileName(p)
  {
    var q := p + [Separator];
    assert LastSegment(q) == [];
    assert q[..|q| - 0] == q;
    assert q[..|q| - 1] == p;
  }

  /** A trailing `.` component does not change the file name. */
  lemma FileNameIgnoresTrailingDot(p: Path)
    ensures FileName(p + [Separator, Utf8('.')]) == FileName(p)
  {
    var d := p + [Separator, Utf8('.')];
    assert d == p + [Separator] + [Utf8('.')];
    LastSegmentOfJoin(p, [Utf8('.')]);
    var rest := d[..|d| - 1];
    assert rest == p + [Separator];
    assert rest[..|rest| - 1] == p;
  }

  /** The text of a path that is valid UTF-8 is what `display` shows. */
  lemma DisplayOfUtf8(p: Path)
    requires IsUtf8(p)
    ensures ToStr(p) == Some(Display(p))
  {
    var t := ToStr(p).value;
    forall i | 0 <= i < |p| ensures t[i] == Display(p)[i] {
      assert p[i] == Utf8(t[i]);
    }
    assert |t| == |p| == |Display(p)|;
    assert t == Display(p);
  }

  /** Text read from a path made of text is that text. */
  lemma ToStrFromStr(s: string)
    ensures ToStr(FromStr(s)) == Some(s)
  {
    var r := ToStr(FromStr(s));
    assert r.Some?;
    assert |r.value| == |s|;
    forall i | 0 <= i < |s| ensures r.value[i] == s[i] {
      assert FromStr(s)[i] == Utf8(r.value[i]) == Utf8(s[i]);
    }
    assert r.value == s;
  }

  /** Text joined with `/` becomes the two paths joined with a separator. */
  lemma FromStrOfJoin(dir: string, name: string)
    ensures FromStr(dir + "/" + name) == FromStr(dir) + [Separator] + FromStr(name)
  {
    var p := FromStr(dir + "/" + name);
    assert p[..|dir|] == FromStr(dir);
    assert p[|dir|] == Separator;
    assert p[|dir| + 1..] == FromStr(name);
  }
}

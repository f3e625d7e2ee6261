/**
 * The parts of Python's `pathlib` (POSIX flavour, Python 3.12 rules) that the
 * converter uses: building a path from text, the final component's stem and
 * suffix, and `with_name`, `with_stem` and `with_suffix`, whose ValueError is
 * modelled as `None`.
 */
module PurePaths {
  import opened Wrappers
  import opened PyStrings

  /**
   * A path as its directory part `dir` (everything up to and including the
   * last '/', or empty) and its final component `name`.
   */
  datatype Path = Path(dir: string, name: string)

  /** `str(path)`: the directory part followed by the name. */
  function Str(p: Path): (s: string)
    ensures |s| == |p.dir| + |p.name|
    ensures s[..|p.dir|] == p.dir && s[|p.dir|..] == p.name
  {
    p.dir + p.name
  }

  /** Two paths in one directory with different names print differently. */
  lemma StrDiffers(a: Path, b: Path)
    requires a.dir == b.dir && a.name != b.name
    ensures Str(a) != Str(b)
  {
    assert Str(a)[|a.dir|..] == a.name;
    assert Str(b)[|b.dir|..] == b.name;
  }

  /** The shape `Path(text)` produces. */
  predicate WellFormed(p: Path)
  {
    '/' !in p.name && (p.dir == [] || p.dir[|p.dir| - 1] == '/')
  }

  /** `Path(s)`: the text after the last '/' is the name, the rest the directory part. */
  function ParsePath(s: string): (p: Path)
    ensures Str(p) == s
    ensures WellFormed(p)
  {
    var i := RFind(s, '/');
    Path(s[..i + 1], s[i + 1..])
  }

  /** Printing a well-formed path and parsing the text back gives the same path. */
  lemma ParseOfStr(p: Path)
    requires WellFormed(p)
    ensures ParsePath(Str(p)) == p
  {
    RFindConcatLeft(p.dir, p.name, '/');
    if p.dir != [] {
      RFindIs(p.dir, '/', |p.dir| - 1);
    }
  }

  /** `PurePath.suffix`: from the last '.', unless that dot is the first or the last character. */
  function Suffix(name: string): (r: string)
    ensures r == [] || (|r| >= 2 && r[0] == '.' && '.' !in r[1..])
    ensures |r| < |name| || r == []
    ensures r == name[|name| - |r|..]
  {
    var i := RFind(name, '.');
    if 0 < i < |name| - 1 then name[i..] else []
  }

  /** `PurePath.stem`: the name without its suffix. */
  function Stem(name: string): (r: string)
    ensures r + Suffix(name) == name
    ensures name != [] ==> r != []
  {
    var i := RFind(name, '.');
    if 0 < i < |name| - 1 then name[..i] else name
  }

  /** A name whose last '.' is its last character (and not its first): it has no suffix. */
  predicate EndsInDot(name: string)
  {
    |name| >= 2 && name[|name| - 1] == '.'
  }

  /** A non-empty stem, a dot and dot-free text: pathlib splits the name exactly at that dot. */
  lemma SplitAtLastDot(stem: string, ext: string)
    requires stem != [] && ext != [] && '.' !in ext
    ensures Suffix(stem + "." + ext) == "." + ext
    ensures Stem(stem + "." + ext) == stem
  {
    var tail := "." + ext;
    assert stem + "." + ext == stem + tail;
    RFindConcatLeft(".", ext, '.');
    assert tail[0] == '.';
    RFindConcatRight(stem, tail, '.');
  }

  /** A name has a suffix exactly when its last dot is neither its first nor its last character. */
  lemma SuffixExists(name: string)
    ensures Suffix(name) != [] <==> 0 < RFind(name, '.') < |name| - 1
    ensures '.' !in name ==> Suffix(name) == []
  {
    var i := RFind(name, '.');
    if 0 < i < |name| - 1 {
      assert Suffix(name)[0] == name[i];
    }
  }

  /** A name whose only dot is its first character (`.bashrc`) has no suffix and is its own stem. */
  lemma LeadingDotOnly(name: string)
    requires |name| >= 1 && name[0] == '.' && '.' !in name[1..]
    ensures Suffix(name) == [] && Stem(name) == name
  {
    assert forall j :: 0 < j < |name| ==> name[j] == name[1..][j - 1];
    RFindIs(name, '.', 0);
  }

  /** A name ending in a dot (`photo.`, `..`) has no suffix and is its own stem. */
  lemma TrailingDot(name: string)
    requires EndsInDot(name)
    ensures Suffix(name) == [] && Stem(name) == name
  {
    RFindIs(name, '.', |name| - 1);
  }

  /** Appending dot-free text to a name without a suffix that does not end in a dot adds no suffix. */
  lemma NoSuffixAfterAppend(name: string, tail: string)
    requires Suffix(name) == [] && !EndsInDot(name) && '.' !in tail
    ensures Suffix(name + tail) == []
    ensures Stem(name + tail) == name + tail
  {
    RFindConcatLeft(name, tail, '.');
  }

  /** The names `with_name` accepts: not empty, no separator, not ".". */
  predicate ValidName(name: string)
  {
    name != [] && '/' !in name && name != "."
  }

  /** `path.with_name(name)`; ValueError when the path's own name is empty or `name` is not valid. */
  function WithName(p: Path, name: string): (r: Option<Path>)
    ensures r.Some? <==> p.name != [] && ValidName(name)
    ensures r.Some? ==> r.value.dir == p.dir && r.value.name == name
    ensures r.Some? && WellFormed(p) ==> WellFormed(r.value)
  {
    if p.name == [] || !ValidName(name) then None else Some(Path(p.dir, name))
  }

  /** `path.with_stem(stem)`: the new stem followed by the old suffix. */
  function WithStem(p: Path, stem: string): (r: Option<Path>)
    ensures r.Some? <==> p.name != [] && ValidName(stem + Suffix(p.name))
    ensures r.Some? ==> r.value.dir == p.dir && r.value.name == stem + Suffix(p.name)
  {
    WithName(p, stem + Suffix(p.name))
  }

  /** The suffixes `with_suffix` accepts: empty, or a '.' followed by something; no separator. */
  predicate ValidSuffix(suffix: string)
  {
    '/' !in suffix && (suffix == [] || (suffix[0] == '.' && suffix != "."))
  }

  /** `path.with_suffix(suffix)`: the old suffix, if any, is cut off and `suffix` appended. */
  function WithSuffix(p: Path, suffix: string): (r: Option<Path>)
    ensures r.Some? <==> p.name != [] && ValidSuffix(suffix)
    ensures r.Some? ==> r.value.dir == p.dir && r.value.name == Stem(p.name) + suffix
  {
    if !ValidSuffix(suffix) || p.name == [] then None
    else
      var oldSuffix := Suffix(p.name);
      var base := if oldSuffix == [] then p.name else p.name[..|p.name| - |oldSuffix|];
      Some(Path(p.dir, base + suffix))
  }

  /**
   * Putting a new non-empty stem in front of a name's suffix: the stem and the
   * suffix are read back, provided the name has a suffix or the stem has none.
   */
  lemma Restem(name: string, stem: string)
    requires stem != []
    requires Suffix(name) != [] || Suffix(stem) == []
    ensures Stem(stem + Suffix(name)) == stem
    ensures Suffix(stem + Suffix(name)) == Suffix(name)
  {
    var suffix := Suffix(name);
    if suffix != [] {
      assert suffix == "." + suffix[1..];
      SplitAtLastDot(stem, suffix[1..]);
    } else {
      assert stem + suffix == stem;
    }
  }

  /**
   * `with_stem` keeps the directory and the suffix and makes `stem` the new
   * stem, provided the old name has a suffix or the new stem has none of its own.
   */
  lemma WithStemKeepsSuffix(p: Path, stem: string)
    requires p.name != [] && '/' !in p.name && ValidName(stem)
    requires Suffix(p.name) != [] || Suffix(stem) == []
    ensures WithStem(p, stem) == Some(Path(p.dir, stem + Suffix(p.name)))
    ensures Stem(stem + Suffix(p.name)) == stem
    ensures Suffix(stem + Suffix(p.name)) == Suffix(p.name)
  {
    var suffix := Suffix(p.name);
    assert '/' !in suffix by {
      assert suffix == p.name[|p.name| - |suffix|..];
    }
    assert ValidName(stem + suffix) by {
      assert (stem + suffix)[0] == stem[0];
      assert |stem + suffix| > 1 || suffix == [];
    }
    Restem(p.name, stem);
  }

  /**
   * `with_suffix` with a '.' and dot-free text keeps the directory and the
   * stem and makes that text the new suffix; it raises only for an empty name.
   */
  lemma WithSuffixReplaces(p: Path, ext: string)
    requires ext != [] && '.' !in ext && '/' !in ext
    ensures WithSuffix(p, "." + ext).Some? <==> p.name != []
    ensures p.name != [] ==> WithSuffix(p, "." + ext) == Some(Path(p.dir, Stem(p.name) + "." + ext))
    ensures p.name != [] ==> Stem(Stem(p.name) + "." + ext) == Stem(p.name)
    ensures p.name != [] ==> Suffix(Stem(p.name) + "." + ext) == "." + ext
  {
    assert ValidSuffix("." + ext);
    if p.name != [] {
      var stem := Stem(p.name);
      assert WithSuffix(p, "." + ext).value.name == stem + ("." + ext);
      SplitAtLastDot(stem, ext);
    }
  }
}

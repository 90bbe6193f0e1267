/** The parts of Python's `pathlib` (POSIX flavour) the modelled code relies
    on: joining, `parent`, `absolute()`, `str()` and `with_suffix`. A path is
    a rooted flag and a sequence of names; every name given to `joinpath` is
    taken as one component. */
module PurePaths {
  import opened Wrappers
  import opened PyStrings

  datatype FsPath = FsPath(rooted: bool, parts: seq<string>)

  /** `p.joinpath(*rel)` for relative names. */
  function JoinPath(p: FsPath, rel: seq<string>): (r: FsPath)
    ensures r.rooted == p.rooted && |r.parts| == |p.parts| + |rel|
    ensures r.parts[..|p.parts|] == p.parts && r.parts[|p.parts|..] == rel
  {
    FsPath(p.rooted, p.parts + rel)
  }

  /** `p.parent`: the path without its last name; the root and the empty
      relative path are their own parents. */
  function Parent(p: FsPath): (r: FsPath)
    ensures r.rooted == p.rooted
    ensures p.parts == [] ==> r == p
    ensures p.parts != [] ==> r.parts + [p.parts[|p.parts| - 1]] == p.parts
  {
    if p.parts == [] then p else FsPath(p.rooted, p.parts[..|p.parts| - 1])
  }

  /** `p.absolute()` with the working directory `cwd` (the names of a rooted
      path) made explicit: a rooted path is kept, a relative one is put under
      `cwd`. */
  function Absolute(cwd: seq<string>, p: FsPath): (r: FsPath)
    ensures r.rooted
    ensures p.rooted ==> r == p
    ensures !p.rooted ==> r.parts == cwd + p.parts
  {
    if p.rooted then p else FsPath(true, cwd + p.parts)
  }

  /** `str(p)`: names joined with "/", a leading "/" for a rooted path, and
      "." for the empty relative path. */
  function PathString(p: FsPath): string
  {
    if p.rooted then "/" + Join(p.parts, '/')
    else if p.parts == [] then "."
    else Join(p.parts, '/')
  }

  /** The names of a rooted path can be read back from its string when no
      name holds a "/". */
  lemma PathStringParts(p: FsPath)
    requires p.rooted && p.parts != []
    requires forall k :: 0 <= k < |p.parts| ==> '/' !in p.parts[k]
    ensures PathString(p)[0] == '/' && Split(PathString(p)[1..], '/') == p.parts
  {
    assert PathString(p)[1..] == Join(p.parts, '/');
    SplitJoin(p.parts, '/');
  }

  /** pathlib's `suffix` rule: the part of the name from its last "." on,
      unless that "." is the first or the last character of the name. */
  predicate HasSuffix(name: string)
  {
    var i := LastIndexOf(name, '.');
    0 < i < |name| - 1
  }

  /** `PurePath(name).suffix`. */
  function Suffix(name: string): string
  {
    if HasSuffix(name) then name[LastIndexOf(name, '.')..] else ""
  }

  /** `PurePath(name).stem`. */
  function Stem(name: string): string
  {
    if HasSuffix(name) then name[..LastIndexOf(name, '.')] else name
  }

  lemma StemSuffix(name: string)
    ensures Stem(name) + Suffix(name) == name
    ensures Stem(name) == "" <==> name == ""
  {
  }

  /** A suffix that `with_suffix` accepts and that reads back as one suffix:
      a "." followed by at least one character, none of them "." or "/". */
  predicate SimpleSuffix(suffix: string)
  {
    |suffix| >= 2 && suffix[0] == '.' && '.' !in suffix[1..] && '/' !in suffix
  }

  /** The name `with_suffix(suffix)` gives: the stem followed by the new
      suffix, so the last suffix is replaced or, when there is none,
      `suffix` is appended. */
  function WithSuffix(name: string, suffix: string): string
  {
    Stem(name) + suffix
  }

  lemma LastDotOfWithSuffix(stem: string, suffix: string)
    requires stem != "" && SimpleSuffix(suffix)
    ensures LastIndexOf(stem + suffix, '.') == |stem|
  {
    var w := stem + suffix;
    var i := LastIndexOf(w, '.');
    assert w[|stem|] == '.';
    assert forall k :: |stem| < k < |w| ==> w[k] == suffix[1..][k - |stem| - 1];
  }

  /** After `with_suffix`, the name reads back with the new suffix and the
      old stem. */
  lemma WithSuffixReadsBack(name: string, suffix: string)
    requires name != "" && SimpleSuffix(suffix)
    ensures Suffix(WithSuffix(name, suffix)) == suffix
    ensures Stem(WithSuffix(name, suffix)) == Stem(name)
  {
    StemSuffix(name);
    LastDotOfWithSuffix(Stem(name), suffix);
    assert (Stem(name) + suffix)[..|Stem(name)|] == Stem(name);
  }

  /** Replacing a suffix twice is replacing it once with the second. */
  lemma WithSuffixTwice(name: string, s1: string, s2: string)
    requires name != "" && SimpleSuffix(s1)
    ensures WithSuffix(WithSuffix(name, s1), s2) == WithSuffix(name, s2)
  {
    WithSuffixReadsBack(name, s1);
  }

  /** `path.with_suffix(suffix)` on a relative path of names: a ValueError for
      an invalid suffix or an empty last name, otherwise the same path with
      the last name's suffix replaced. */
  function WithSuffixPath(path: seq<string>, suffix: string): (r: Result<seq<string>, Error>)
    ensures r.Success? <==> path != [] && path[|path| - 1] != "" && ValidSuffixArgument(suffix)
    ensures r.Success? ==>
              && |r.value| == |path|
              && r.value[..|path| - 1] == path[..|path| - 1]
              && r.value[|path| - 1] == WithSuffix(path[|path| - 1], suffix)
  {
    if !ValidSuffixArgument(suffix) then Failure(ValueError("Invalid suffix"))
    else if path == [] || path[|path| - 1] == "" then Failure(ValueError("has an empty name"))
    else Success(path[..|path| - 1] + [WithSuffix(path[|path| - 1], suffix)])
  }

  /** The suffixes `with_suffix` accepts: no "/", and either empty or a "."
      followed by something. */
  predicate ValidSuffixArgument(suffix: string)
  {
    '/' !in suffix && (suffix == "" || (suffix[0] == '.' && suffix != "."))
  }
}

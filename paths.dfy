/**
 * File-system paths as the sequence of their components (Rust's
 * `PathBuf::components`), with the `PathBuf` operations the server uses:
 * `join`, `parent`, `extension`, `file_stem`, `set_extension` and
 * `strip_prefix`.
 */
module Paths {
  import opened Options
  import opened Text

  type Path = seq<string>

  /** A component as it comes out of `components()`: not empty, no `/`, not ".". */
  predicate IsComponent(c: string) {
    c != "" && c != "." && '/' !in c
  }

  predicate WellFormed(p: Path) {
    forall i :: 0 <= i < |p| ==> IsComponent(p[i])
  }

  /** The components `components()` yields for a relative path string. */
  function Components(part: string): (r: Path)
    ensures WellFormed(r)
  {
    KeepComponents(Split(part, '/'))
  }

  function KeepComponents(pieces: seq<string>): (r: Path)
    requires forall i :: 0 <= i < |pieces| ==> '/' !in pieces[i]
    ensures WellFormed(r)
    ensures forall c :: c in r <==> c in pieces && IsComponent(c)
  {
    if |pieces| == 0 then []
    else
      (if IsComponent(pieces[0]) then [pieces[0]] else []) + KeepComponents(pieces[1..])
  }

  /** A single plain name is one component. */
  lemma ComponentsOfName(name: string)
    requires IsComponent(name)
    ensures Components(name) == [name]
  {
    assert Split(name, '/') == [name];
    assert KeepComponents([name]) == [name] + KeepComponents([]);
  }

  /** `path.join(part)` for a relative `part`. */
  function Join(p: Path, part: string): (r: Path)
    ensures |r| >= |p| && r[..|p|] == p
    ensures r[|p|..] == Components(part)
  {
    p + Components(part)
  }

  /** The last component, if any. */
  function FileName(p: Path): (r: Option<string>)
    ensures r.Some? <==> |p| > 0
    ensures r.Some? ==> r.value == p[|p| - 1]
  {
    if |p| == 0 then None else Some(p[|p| - 1])
  }

  /** Position of the last `.` of a name, if any. */
  function LastDot(name: string): (r: Option<nat>)
    ensures r.Some? ==> r.value < |name| && name[r.value] == '.'
    ensures r.Some? ==> '.' !in name[r.value + 1..]
    ensures r.None? ==> '.' !in name
  {
    if |name| == 0 then None
    else if name[|name| - 1] == '.' then Some(|name| - 1)
    else
      var r := LastDot(name[..|name| - 1]);
      assert name == name[..|name| - 1] + [name[|name| - 1]];
      match r
      case None => None
      case Some(i) =>
        assert name[i + 1..] == name[..|name| - 1][i + 1..] + [name[|name| - 1]];
        Some(i)
  }

  /**
   * Where a file name splits into stem and extension: after its last
   * dot, unless that dot is the first character (".profile" has no
   * extension).
   */
  function ExtensionDot(name: string): (r: Option<nat>)
    ensures r.Some? ==> 0 < r.value < |name| && name[r.value] == '.' && '.' !in name[r.value + 1..]
  {
    match LastDot(name)
    case Some(i) => if i == 0 then None else Some(i)
    case None => None
  }

  /** `path.extension()` */
  function Extension(p: Path): (r: Option<string>)
    ensures r.Some? ==> |p| > 0 && '.' !in r.value
  {
    if |p| == 0 then None
    else
      var name := p[|p| - 1];
      match ExtensionDot(name)
      case Some(i) => Some(name[i + 1..])
      case None => None
  }

  /** `path.file_stem()` */
  function FileStem(p: Path): (r: Option<string>)
    ensures r.Some? <==> |p| > 0
    ensures r.Some? ==> r.value <= p[|p| - 1]
  {
    if |p| == 0 then None
    else
      var name := p[|p| - 1];
      match ExtensionDot(name)
      case Some(i) => Some(name[..i])
      case None => Some(name)
  }

  /** Stem, dot and extension give the file name back. */
  lemma StemAndExtension(p: Path)
    requires Extension(p).Some?
    ensures FileStem(p).value + "." + Extension(p).value == p[|p| - 1]
  {
    var name := p[|p| - 1];
    var i := ExtensionDot(name).value;
    assert name == name[..i] + [name[i]] + name[i + 1..];
  }

  /**
   * `path.set_extension(ext)`: the file name becomes its stem followed
   * by "." and `ext` (by the stem alone when `ext` is empty); a path
   * without a file name is left as it is.
   */
  function SetExtension(p: Path, ext: string): (r: Path)
    ensures |r| == |p|
    ensures |p| > 0 ==> r[..|p| - 1] == p[..|p| - 1]
    ensures |p| > 0 && ext != "" ==> r[|p| - 1] == FileStem(p).value + "." + ext
    ensures |p| > 0 && ext == "" ==> r[|p| - 1] == FileStem(p).value
  {
    if |p| == 0 then p
    else
      var stem := FileStem(p).value;
      p[..|p| - 1] + [if ext == "" then stem else stem + "." + ext]
  }

  /** Concatenation regroups freely; stated on its own so that callers pay for it in a small context. */
  lemma ConcatAssoc<T>(a: seq<T>, b: seq<T>, c: seq<T>)
    ensures a + (b + c) == a + b + c
  {
  }

  /** Setting the extension of a file below `dir` leaves `dir` as it is. */
  lemma SetExtensionKeepsDir(dir: Path, rest: Path, ext: string)
    requires |rest| > 0
    ensures SetExtension(dir + rest, ext) == dir + SetExtension(rest, ext)
  {
    var p := dir + rest;
    assert p[|p| - 1] == rest[|rest| - 1];
    assert FileStem(p) == FileStem(rest);
    assert p[..|p| - 1] == dir + rest[..|rest| - 1];
    var r, q := SetExtension(p, ext), SetExtension(rest, ext);
    assert r == p[..|p| - 1] + [r[|p| - 1]];
    assert q == rest[..|rest| - 1] + [q[|rest| - 1]];
  }

  /** `path.parent()`: everything but the last component. */
  function Parent(p: Path): (r: Option<Path>)
    ensures r.Some? <==> |p| > 0
    ensures r.Some? ==> r.value + [p[|p| - 1]] == p
  {
    if |p| == 0 then None else Some(p[..|p| - 1])
  }

  /** `path.pop()` on an owned path: the last component removed, if there is one. */
  function Pop(p: Path): (r: Path)
    ensures |p| > 0 ==> r + [p[|p| - 1]] == p
    ensures |p| == 0 ==> r == p
  {
    if |p| == 0 then p else p[..|p| - 1]
  }

  /** `path.strip_prefix(base)` */
  function StripPrefix(p: Path, base: Path): (r: Option<Path>)
    ensures r.Some? <==> base <= p
    ensures r.Some? ==> base + r.value == p
  {
    if base <= p then Some(p[|base|..]) else None
  }

  /** `path.strip_prefix(base).unwrap_or(path)` */
  function RelativeTo(p: Path, base: Path): (r: Path)
    ensures base <= p ==> base + r == p
    ensures !(base <= p) ==> r == p
  {
    StripPrefix(p, base).GetOr(p)
  }
}

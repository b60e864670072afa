/**
 * The two shapes of candidate list the definition finders build: the
 * same relative path under each of several directories (one per theme
 * or workspace), and one directory per area candidate inside a module
 * (`view/<area>/...`); optionally with ".<ext>" appended to the file
 * name. Each comes with the loop that tries the candidates in order and
 * pushes a location for every one that exists.
 */
module Candidates {
  import opened Options
  import opened Paths
  import opened M2
  import opened Locations

  /** `path.append(parts)`, then `append_ext(ext)` when an extension is given. */
  function WithExt(p: Path, ext: Option<string>): (r: Path)
    ensures ext.None? ==> r == p
    ensures |r| == |p|
  {
    if ext.None? then p else AppendExt(p, ext.value)
  }

  /** `parts` appended under each directory, in the directories' order. */
  function Under(dirs: seq<Path>, parts: seq<string>, ext: Option<string>): (r: seq<Path>)
    ensures |r| == |dirs|
  {
    seq(|dirs|, i requires 0 <= i < |dirs| => WithExt(dirs[i] + PartsComponents(parts), ext))
  }

  /** `before`, one area directory, then `after`, under `base`, for each area in order. */
  function Across(base: Path, areas: seq<string>, before: seq<string>, after: seq<string>,
                  ext: Option<string>): (r: seq<Path>)
    ensures |r| == |areas|
  {
    seq(|areas|, i requires 0 <= i < |areas| =>
      WithExt(base + PartsComponents(before + [areas[i]] + after), ext))
  }

  lemma UnderAppend(a: seq<Path>, b: seq<Path>, parts: seq<string>, ext: Option<string>)
    ensures Under(a + b, parts, ext) == Under(a, parts, ext) + Under(b, parts, ext)
  {
  }

  /** `path.append(parts)`, then `append_ext(ext)` when an extension is given. */
  method AppendWithExt(p: Path, parts: seq<string>, ext: Option<string>) returns (path: Path)
    ensures path == WithExt(p + PartsComponents(parts), ext)
  {
    path := Append(p, parts);
    if ext.Some? {
      path := AppendExt(path, ext.value);
    }
  }

  /** Push the location of `path` when the file exists. */
  method PushExisting(result: seq<Location>, path: Path, files: set<Path>) returns (r: seq<Location>)
    ensures r == result + (if path in files then [Location(path, DefaultRange)] else [])
  {
    r := result;
    var location := PathToLocation(path, files);
    if location.Some? {
      r := r + [location.value];
    }
  }

  /** One step of the candidate loops: pushing candidate `i` extends the prefix's locations by one. */
  lemma PushStep(result: seq<Location>, cands: seq<Path>, i: nat, files: set<Path>)
    requires i < |cands|
    ensures result + Locate(cands[..i], files) + (if cands[i] in files then [Location(cands[i], DefaultRange)] else [])
         == result + Locate(cands[..i + 1], files)
  {
    LocatePrefixStep(cands, i, files);
    ConcatAssoc(result, Locate(cands[..i], files), if cands[i] in files then [Location(cands[i], DefaultRange)] else []);
  }

  /** Try every directory in order, pushing the location of each candidate that exists. */
  method PushUnder(result: seq<Location>, dirs: seq<Path>, parts: seq<string>, ext: Option<string>,
                   files: set<Path>) returns (r: seq<Location>)
    ensures r == result + Locate(Under(dirs, parts, ext), files)
  {
    ghost var cands := Under(dirs, parts, ext);
    r := result;
    var i := 0;
    while i < |dirs|
      invariant 0 <= i <= |dirs|
      invariant r == result + Locate(cands[..i], files)
    {
      var path := AppendWithExt(dirs[i], parts, ext);
      assert path == cands[i];
      PushStep(result, cands, i, files);
      r := PushExisting(r, path, files);
      i := i + 1;
    }
    assert cands[..i] == cands;
  }

  /** Try every area directory in order, pushing the location of each candidate that exists. */
  method PushAcross(result: seq<Location>, base: Path, areas: seq<string>, before: seq<string>,
                    after: seq<string>, ext: Option<string>, files: set<Path>) returns (r: seq<Location>)
    ensures r == result + Locate(Across(base, areas, before, after, ext), files)
  {
    ghost var cands := Across(base, areas, before, after, ext);
    r := result;
    var i := 0;
    while i < |areas|
      invariant 0 <= i <= |areas|
      invariant r == result + Locate(cands[..i], files)
    {
      var path := AppendWithExt(base, before + [areas[i]] + after, ext);
      assert path == cands[i];
      PushStep(result, cands, i, files);
      r := PushExisting(r, path, files);
      i := i + 1;
    }
    assert cands[..i] == cands;
  }

  /** Appending plain names adds exactly those components, in order. */
  lemma AppendNames(base: Path, names: seq<string>, rest: string)
    requires forall i :: 0 <= i < |names| ==> IsComponent(names[i])
    ensures base + PartsComponents(names + [rest]) == base + names + Components(rest)
  {
    var all := names + [rest];
    assert PartsComponents(all) == PartsComponents(names) + Components(rest) by {
      assert all[..|all| - 1] == names && all[|all| - 1] == rest;
    }
    assert PartsComponents(names) == names by {
      PartsComponentsOfNames(names);
    }
    ConcatAssoc(base, names, Components(rest));
  }
}

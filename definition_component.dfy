/**
 * Go-to-definition for RequireJS components: a plain component under
 * each workspace's `lib/web`, a relative component next to the edited
 * file, and a module component (with the mixins registered for it) in
 * the module's `view/<area>/web` directories.
 */
module DefinitionComponent {
  import opened Options
  import opened Text
  import opened Paths
  import opened M2
  import opened Locations
  import opened Candidates
  import Store

  /** The directory and file-name pieces of a component path. */
  const LibDir: string := "lib"
  const WebDir: string := "web"
  const ViewDir: string := "view"
  const JsExt: string := "js"

  /** `<workspace>/lib/web/<comp>.js` for each workspace, in registration order. */
  function PlainCandidates(workspaces: seq<Path>, comp: string): (r: seq<Path>)
    ensures |r| == |workspaces|
  {
    Under(workspaces, [LibDir, WebDir, comp], Some(JsExt))
  }

  /** A plain component's candidate is the workspace, `lib`, `web` and the component with ".js" added. */
  lemma PlainCandidateShape(workspaces: seq<Path>, comp: string, i: nat)
    requires i < |workspaces|
    ensures PlainCandidates(workspaces, comp)[i] == AppendExt(workspaces[i] + [LibDir, WebDir] + Components(comp), JsExt)
  {
    assert [LibDir, WebDir, comp] == [LibDir, WebDir] + [comp];
    AppendNames(workspaces[i], [LibDir, WebDir], comp);
  }

  /** `find_plain` */
  method FindPlain(st: Store.State, comp: string, files: set<Path>) returns (r: seq<Location>)
    ensures r == Locate(PlainCandidates(st.workspaces, comp), files)
  {
    var workspaces := st.workspaces;
    r := PushUnder([], workspaces, [LibDir, WebDir, comp], Some(JsExt), files);
  }

  /** The file `find_rel` looks for: the component joined to the directory, its extension set to "js". */
  function RelCandidate(comp: string, dir: Path): (r: Path)
  {
    SetExtension(Join(dir, comp), JsExt)
  }

  /** `find_rel`: the one location, or nothing at all when the file does not exist. */
  function FindRel(comp: string, dir: Path, files: set<Path>): (r: Option<seq<Location>>)
    ensures r.Some? <==> RelCandidate(comp, dir) in files
    ensures r.Some? ==> r.value == [Location(RelCandidate(comp, dir), DefaultRange)]
  {
    match PathToLocation(RelCandidate(comp, dir), files)
    case None => None
    case Some(location) => Some([location])
  }

  /**
   * Unlike the other component lookups, a relative component whose
   * name already has an extension has it REPLACED by "js" instead of
   * getting ".js" added: "./jquery.min" is looked up as "jquery.js",
   * not "jquery.min.js".
   */
  lemma RelReplacesExtension(comp: string, dir: Path)
    requires Extension(Join(dir, comp)).Some?
    ensures var p := Join(dir, comp);
      RelCandidate(comp, dir)[|p| - 1] == FileStem(p).value + "." + JsExt
      && RelCandidate(comp, dir) != AppendExt(p, JsExt)
  {
    var p := Join(dir, comp);
    StemAndExtension(p);
    var r := RelCandidate(comp, dir);
    var q := AppendExt(p, JsExt);
    assert |r[|p| - 1]| < |q[|p| - 1]|;
  }

  /** The candidates of one component: a module component across the area's view directories, anything else none. */
  function ComponentCandidates(c: Item, area: Area): (r: seq<Path>)
    ensures !c.ModComponent? ==> r == []
    ensures c.ModComponent? ==> |r| == |PathCandidates(area)|
  {
    if c.ModComponent? then Across(c.modPath, PathCandidates(area), [ViewDir], [WebDir, c.file], Some(JsExt))
    else []
  }

  /** The candidates of every component, in order. */
  function AllCandidates(cs: seq<Item>, area: Area): (r: seq<Path>)
  {
    if |cs| == 0 then []
    else AllCandidates(cs[..|cs| - 1], area) + ComponentCandidates(cs[|cs| - 1], area)
  }

  lemma {:induction false} AllCandidatesAppend(a: seq<Item>, b: seq<Item>, area: Area)
    ensures AllCandidates(a + b, area) == AllCandidates(a, area) + AllCandidates(b, area)
    decreases |b|
  {
    if |b| == 0 {
      assert a + b == a;
    } else {
      var front, last := b[..|b| - 1], b[|b| - 1];
      assert (a + b)[..|a + b| - 1] == a + front && (a + b)[|a + b| - 1] == last;
      AllCandidatesAppend(a, front, area);
      ConcatAssoc(AllCandidates(a, area), AllCandidates(front, area), ComponentCandidates(last, area));
    }
  }

  lemma AllCandidatesSingle(c: Item, area: Area)
    ensures AllCandidates([c], area) == ComponentCandidates(c, area)
  {
    assert [c][..0] == [];
  }

  /** A component that is not a module component adds no candidate wherever it stands. */
  lemma NonModComponentIgnored(cs: seq<Item>, i: nat, area: Area)
    requires i < |cs| && !cs[i].ModComponent?
    ensures AllCandidates(cs, area) == AllCandidates(cs[..i] + cs[i + 1..], area)
  {
    var before, after := cs[..i], cs[i + 1..];
    assert cs == (before + [cs[i]]) + after;
    AllCandidatesAppend(before + [cs[i]], after, area);
    AllCandidatesAppend(before, [cs[i]], area);
    AllCandidatesSingle(cs[i], area);
    AllCandidatesAppend(before, after, area);
    var a, b := AllCandidates(before, area), AllCandidates(after, area);
    assert AllCandidates(before + [cs[i]], area) == a + [];
    assert a + [] == a;
  }

  /** The component itself, then the mixins registered for `<module>/<file>` in the edited file's area. */
  function SearchedComponents(st: Store.State, modName: string, filePath: string, modPath: Path, path: Path): (r: seq<Item>)
    reads st
    requires st.Valid()
    ensures |r| >= 1 && r[0] == ModComponent(modName, filePath, modPath)
    ensures r[1..] == st.GetComponentMixinsForArea(modName + "/" + filePath, GetArea(path))
  {
    [ModComponent(modName, filePath, modPath)] + st.GetComponentMixinsForArea(modName + "/" + filePath, GetArea(path))
  }

  /** The component's own files come first, then its mixins' files. */
  lemma BaseComponentFirst(c: Item, mixins: seq<Item>, area: Area)
    ensures AllCandidates([c] + mixins, area) == ComponentCandidates(c, area) + AllCandidates(mixins, area)
  {
    AllCandidatesAppend([c], mixins, area);
    AllCandidatesSingle(c, area);
  }

  /** `mod_location` */
  method ModLocation(st: Store.State, modName: string, filePath: string, modPath: Path, path: Path,
                     files: set<Path>) returns (r: seq<Location>)
    requires st.Valid()
    ensures r == Locate(AllCandidates(SearchedComponents(st, modName, filePath, modPath, path), GetArea(path)), files)
  {
    var area := GetArea(path);
    var components := [ModComponent(modName, filePath, modPath)];
    components := components + st.GetComponentMixinsForArea(modName + "/" + filePath, area);
    r := [];
    var i := 0;
    while i < |components|
      invariant 0 <= i <= |components|
      invariant r == Locate(AllCandidates(components[..i], area), files)
    {
      AllCandidatesStep(components, i, area, files);
      r := PushComponent(r, components[i], area, files);
      i := i + 1;
    }
    assert components[..i] == components;
  }

  /** One step of `mod_location`'s loop: the next component's candidates follow the earlier ones'. */
  lemma AllCandidatesStep(cs: seq<Item>, i: nat, area: Area, files: set<Path>)
    requires i < |cs|
    ensures Locate(AllCandidates(cs[..i + 1], area), files)
         == Locate(AllCandidates(cs[..i], area), files) + Locate(ComponentCandidates(cs[i], area), files)
  {
    assert cs[..i + 1][..i] == cs[..i];
    LocateAppend(AllCandidates(cs[..i], area), ComponentCandidates(cs[i], area), files);
  }

  /** The body of `mod_location`'s loop: a module component pushes its files, anything else nothing. */
  method PushComponent(result: seq<Location>, component: Item, area: Area, files: set<Path>)
    returns (r: seq<Location>)
    ensures r == result + Locate(ComponentCandidates(component, area), files)
  {
    r := result;
    if component.ModComponent? {
      r := PushAcross(r, component.modPath, PathCandidates(area), [ViewDir], [WebDir, component.file], Some(JsExt), files);
    } else {
      assert Locate([], files) == [];
    }
  }

  /** The candidates `mod_html_location` tries: the file as given, no extension added. */
  function HtmlCandidates(filePath: string, modPath: Path, area: Area): (r: seq<Path>)
    ensures |r| == |PathCandidates(area)|
  {
    Across(modPath, PathCandidates(area), [ViewDir], [WebDir, filePath], None)
  }

  /** An HTML template candidate is `view/<a>/web/<file>` with nothing appended. */
  lemma HtmlCandidateShape(filePath: string, modPath: Path, area: Area, i: nat)
    requires i < |PathCandidates(area)|
    ensures HtmlCandidates(filePath, modPath, area)[i] == modPath + [ViewDir, PathCandidates(area)[i], WebDir] + Components(filePath)
  {
    var a := PathCandidates(area)[i];
    assert [ViewDir] + [a] + [WebDir, filePath] == [ViewDir, a, WebDir] + [filePath];
    AppendNames(modPath, [ViewDir, a, WebDir], filePath);
  }

  /** `mod_html_location` */
  method ModHtmlLocation(filePath: string, modPath: Path, path: Path, files: set<Path>) returns (r: seq<Location>)
    ensures r == Locate(HtmlCandidates(filePath, modPath, GetArea(path)), files)
  {
    var area := GetArea(path);
    r := PushAcross([], modPath, PathCandidates(area), [ViewDir], [WebDir, filePath], None, files);
  }
}

/**
 * The second-generation index (`State`): modules, module paths, themes
 * and per-area RequireJS tables, each key recorded under the source
 * file that contributed it so that re-indexing a file first retracts
 * exactly that file's keys; plus open buffers and workspace roots.
 */
module Store {
  import opened Options
  import opened Text
  import opened Paths
  import opened M2
  import opened Provenance
  import Listing

  /** `TrackingList`: for each source file, the keys it contributed, in order. */
  class TrackingList {
    var lists: map<Path, seq<Trackee>>

    constructor()
      ensures lists == map[]
    {
      lists := map[];
    }

    /** `track`: append to the file's list, creating it if needed. */
    method Track(source: Path, x: Trackee)
      modifies this
      ensures lists == Provenance.MaybeTrack(old(lists), Some(source), x)
    {
      var list := if source in lists then lists[source] else [];
      lists := lists[source := list + [x]];
    }

    /** `maybe_track`: track under the current source file, or do nothing without one. */
    method MaybeTrack(source: Option<Path>, x: Trackee)
      modifies this
      ensures lists == Provenance.MaybeTrack(old(lists), source, x)
    {
      if source.Some? {
        Track(source.value, x);
      }
    }

    /** `untrack`: remove and return the file's list. */
    method Untrack(source: Path) returns (list: Option<seq<Trackee>>)
      modifies this
      ensures list.Some? <==> source in old(lists)
      ensures list.Some? ==> list.value == old(lists)[source]
      ensures lists == old(lists) - {source}
    {
      list := if source in lists then Some(lists[source]) else None;
      lists := lists - {source};
    }
  }

  /** `Vec::contains` then `push` when absent: a workspace root is registered once. */
  function Register(workspaces: seq<Path>, root: Path): (r: seq<Path>)
    ensures root in r
    ensures forall p :: p in r <==> p in workspaces || p == root
    ensures root in workspaces ==> r == workspaces
    ensures root !in workspaces ==> r == workspaces + [root]
  {
    if root in workspaces then workspaces else workspaces + [root]
  }

  /** Registering the same root again changes nothing. */
  lemma RegisterIdempotent(workspaces: seq<Path>, root: Path)
    ensures Register(Register(workspaces, root), root) == Register(workspaces, root)
  {
  }

  /** Registration never introduces a duplicate root. */
  lemma RegisterKeepsDistinct(workspaces: seq<Path>, root: Path)
    requires Listing.Distinct(workspaces)
    ensures Listing.Distinct(Register(workspaces, root))
  {
    var r := Register(workspaces, root);
    if root !in workspaces {
      forall i, j | 0 <= i < j < |r| ensures r[i] != r[j] {
        if j == |workspaces| {
          assert r[i] == workspaces[i];
          assert workspaces[i] in workspaces;
        }
      }
    }
  }

  /** `Vec::reverse` */
  function Reversed<T>(s: seq<T>): (r: seq<T>)
    ensures |r| == |s|
    ensures forall i :: 0 <= i < |s| ==> r[i] == s[|s| - 1 - i]
  {
    if |s| == 0 then [] else Reversed(s[1..]) + [s[0]]
  }

  /**
   * The largest `k < n` whose first `k` class segments, joined by `\`,
   * name a registered module; `k == 0` stands for the empty prefix.
   */
  function LongestRegisteredPrefix(modulePaths: map<string, Path>, parts: seq<string>, n: nat): (r: Option<nat>)
    requires n <= |parts|
    ensures r.Some? ==> r.value < n && JoinWith(parts[..r.value], '\\') in modulePaths
    ensures r.Some? ==> forall k :: r.value < k < n ==> JoinWith(parts[..k], '\\') !in modulePaths
    ensures r.None? ==> forall k :: 0 <= k < n ==> JoinWith(parts[..k], '\\') !in modulePaths
  {
    if n == 0 then None
    else if JoinWith(parts[..n - 1], '\\') in modulePaths then Some(n - 1)
    else LongestRegisteredPrefix(modulePaths, parts, n - 1)
  }

  /**
   * `split_class_to_path_and_suffix`: the directory of the module whose
   * name is the longest proper prefix of the class, and the remaining
   * non-empty segments, in order.
   */
  function SplitClass(modulePaths: map<string, Path>, className: string): (r: Option<(Path, seq<string>)>)
    ensures var parts := Split(className, '\\');
      r.Some? ==>
        var k := |parts| - |r.value.1|;
        1 <= |r.value.1| <= |parts| && parts[..k] + r.value.1 == parts
        && JoinWith(parts[..k], '\\') in modulePaths && r.value.0 == modulePaths[JoinWith(parts[..k], '\\')]
        && forall j :: k < j < |parts| ==> JoinWith(parts[..j], '\\') !in modulePaths
    ensures var parts := Split(className, '\\');
      r.None? <==> forall k :: 0 <= k < |parts| ==> JoinWith(parts[..k], '\\') !in modulePaths
  {
    var parts := Split(className, '\\');
    match LongestRegisteredPrefix(modulePaths, parts, |parts|)
    case None => None
    case Some(k) =>
      assert parts[..k] + parts[k..] == parts;
      Some((modulePaths[JoinWith(parts[..k], '\\')], parts[k..]))
  }

  /** A prefix that names no module passes the search on to the shorter prefixes. */
  lemma LongestStep(modulePaths: map<string, Path>, all: seq<string>, n: nat)
    requires 0 < n <= |all| && JoinWith(all[..n - 1], '\\') !in modulePaths
    ensures LongestRegisteredPrefix(modulePaths, all, n) == LongestRegisteredPrefix(modulePaths, all, n - 1)
  {
  }

  /** A suffix collected back to front, reversed, is the tail of the segments. */
  lemma ReversedTail(all: seq<string>, suffix: seq<string>, n: nat)
    requires n <= |all| && |suffix| == |all| - n && BackToFront(all, suffix)
    ensures Reversed(suffix) == all[n..]
  {
  }

  /** `suffix` holds the last segments of `all`, last one first. */
  predicate BackToFront(all: seq<string>, suffix: seq<string>)
    requires |suffix| <= |all|
  {
    forall i :: 0 <= i < |suffix| ==> suffix[i] == all[|all| - 1 - i]
  }

  lemma BackToFrontStep(all: seq<string>, suffix: seq<string>)
    requires |suffix| < |all| && BackToFront(all, suffix)
    ensures BackToFront(all, suffix + [all[|all| - 1 - |suffix|]])
  {
  }

  /**
   * When the first `k` segments are the longest registered prefix, the
   * split is that module's directory and the segments from `k` on.
   */
  lemma SplitFoundAt(modulePaths: map<string, Path>, className: string, k: nat)
    requires var all := Split(className, '\\');
      k < |all| && LongestRegisteredPrefix(modulePaths, all, |all|) == LongestRegisteredPrefix(modulePaths, all, k + 1)
      && JoinWith(all[..k], '\\') in modulePaths
    ensures var all := Split(className, '\\');
      SplitClass(modulePaths, className) == Some((modulePaths[JoinWith(all[..k], '\\')], all[k..]))
  {
    var all := Split(className, '\\');
    assert LongestRegisteredPrefix(modulePaths, all, k + 1) == Some(k);
  }

  class State {
    var sourceFile: Option<Path>
    const tracking: TrackingList
    var buffers: map<Path, string>
    var modules: seq<string>
    var modulePaths: map<string, Path>
    var frontThemes: map<string, Path>
    var adminThemes: map<string, Path>
    var jsMaps: seq<map<string, string>>
    var jsMixins: seq<map<string, seq<Item>>>
    var workspaces: seq<Path>

    /** The indexed facts as a value. */
    function Facts(): Tables
      reads this
    {
      Tables(modules, modulePaths, frontThemes, adminThemes, jsMaps, jsMixins)
    }

    /** The facts together with the current source file and the provenance record. */
    function Snapshot(): Snap
      reads this, tracking
    {
      Snap(sourceFile, tracking.lists, Facts())
    }

    /** Three per-area tables of each kind. */
    predicate Valid()
      reads this
    {
      WellSized(Facts())
    }

    /** `State::new` */
    constructor()
      ensures Valid() && fresh(tracking)
      ensures Snapshot() == Snap(None, map[], EmptyTables)
      ensures buffers == map[] && workspaces == []
    {
      sourceFile := None;
      tracking := new TrackingList();
      buffers := map[];
      modules := [];
      modulePaths := map[];
      frontThemes := map[];
      adminThemes := map[];
      jsMaps := [map[], map[], map[]];
      jsMixins := [map[], map[], map[]];
      workspaces := [];
    }

    /** `set_source_file`: later insertions are recorded under `path`. */
    method SetSourceFile(path: Path)
      requires Valid()
      modifies this
      ensures Valid()
      ensures Snapshot() == Apply(old(Snapshot()), Mutation.SetSourceFile(path))
      ensures buffers == old(buffers) && workspaces == old(workspaces)
    {
      sourceFile := Some(path);
    }

    /** `add_module`: record provenance, then append (duplicates are kept). */
    method AddModule(name: string)
      requires Valid()
      modifies this, tracking
      ensures Valid()
      ensures Snapshot() == Apply(old(Snapshot()), ModuleAdded(name))
      ensures buffers == old(buffers) && workspaces == old(workspaces)
    {
      tracking.MaybeTrack(sourceFile, Module(name));
      modules := modules + [name];
    }

    /** `add_module_path`: record provenance, then insert or overwrite. */
    method AddModulePath(name: string, path: Path)
      requires Valid()
      modifies this, tracking
      ensures Valid()
      ensures Snapshot() == Apply(old(Snapshot()), ModulePathAdded(name, path))
      ensures buffers == old(buffers) && workspaces == old(workspaces)
    {
      tracking.MaybeTrack(sourceFile, ModulePath(name));
      modulePaths := modulePaths[name := path];
    }

    /** `add_admin_theme_path` */
    method AddAdminThemePath(name: string, path: Path)
      requires Valid()
      modifies this, tracking
      ensures Valid()
      ensures Snapshot() == Apply(old(Snapshot()), AdminThemeAdded(name, path))
      ensures buffers == old(buffers) && workspaces == old(workspaces)
    {
      tracking.MaybeTrack(sourceFile, Themes(Adminhtml, name));
      adminThemes := adminThemes[name := path];
    }

    /** `add_front_theme_path` */
    method AddFrontThemePath(name: string, path: Path)
      requires Valid()
      modifies this, tracking
      ensures Valid()
      ensures Snapshot() == Apply(old(Snapshot()), FrontThemeAdded(name, path))
      ensures buffers == old(buffers) && workspaces == old(workspaces)
    {
      tracking.MaybeTrack(sourceFile, Themes(Frontend, name));
      frontThemes := frontThemes[name := path];
    }

    /** `add_component_map`: insert into the area's table, last write wins. */
    method AddComponentMap(name: string, val: string, area: Area)
      requires Valid()
      modifies this, tracking
      ensures Valid()
      ensures Snapshot() == Apply(old(Snapshot()), ComponentMapAdded(name, val, area))
      ensures buffers == old(buffers) && workspaces == old(workspaces)
    {
      tracking.MaybeTrack(sourceFile, JsMap(area, name));
      var id := AreaId(area);
      jsMaps := jsMaps[id := jsMaps[id][name := val]];
    }

    /**
     * `add_component_mixin`: provenance is always recorded; the value is
     * appended to the name's list only when it reads as a component.
     */
    method AddComponentMixin(name: string, val: string, area: Area)
      requires Valid()
      modifies this, tracking
      ensures Valid()
      ensures Snapshot() == Apply(old(Snapshot()), ComponentMixinAdded(name, val, area))
      ensures buffers == old(buffers) && workspaces == old(workspaces)
    {
      tracking.MaybeTrack(sourceFile, JsMixin(area, name));
      var component := MixinComponent(Facts(), val);
      if component.Some? {
        var id := AreaId(area);
        var list := if name in jsMixins[id] then jsMixins[id][name] else [];
        jsMixins := jsMixins[id := jsMixins[id][name := list + [component.value]]];
      }
    }

    /** One call of an indexer working on this state. */
    method ApplyMutation(m: Mutation)
      requires Valid()
      modifies this, tracking
      ensures Valid()
      ensures Snapshot() == Apply(old(Snapshot()), m)
      ensures buffers == old(buffers) && workspaces == old(workspaces)
    {
      match m
      case SetSourceFile(p) => SetSourceFile(p);
      case ModuleAdded(n) => AddModule(n);
      case ModulePathAdded(n, p) => AddModulePath(n, p);
      case AdminThemeAdded(n, p) => AddAdminThemePath(n, p);
      case FrontThemeAdded(n, p) => AddFrontThemePath(n, p);
      case ComponentMapAdded(n, v, a) => AddComponentMap(n, v, a);
      case ComponentMixinAdded(n, v, a) => AddComponentMixin(n, v, a);
    }

    /** Remove the one key a trackee names. */
    method RetractOne(x: Trackee)
      requires Valid()
      modifies this
      ensures Valid()
      ensures Facts() == Retract(old(Facts()), x)
      ensures sourceFile == old(sourceFile) && buffers == old(buffers) && workspaces == old(workspaces)
    {
      match x
      case JsMap(area, name) =>
        var id := AreaId(area);
        jsMaps := jsMaps[id := jsMaps[id] - {name}];
      case JsMixin(area, name) =>
        var id := AreaId(area);
        jsMixins := jsMixins[id := jsMixins[id] - {name}];
      case Module(m) =>
        modules := Without(modules, m);
      case ModulePath(m) =>
        modulePaths := modulePaths - {m};
      case Themes(area, name) =>
        match area
        case Frontend => frontThemes := frontThemes - {name};
        case Adminhtml => adminThemes := adminThemes - {name};
        case Base =>
          frontThemes := frontThemes - {name};
          adminThemes := adminThemes - {name};
    }

    /**
     * `clear_from_source`: take the file's tracking list and retract
     * every key on it, in order; an untracked file changes nothing.
     */
    method ClearFromSource(path: Path)
      requires Valid()
      modifies this, tracking
      ensures Valid()
      ensures Snapshot() == Clear(old(Snapshot()), path)
      ensures buffers == old(buffers) && workspaces == old(workspaces)
    {
      var list := tracking.Untrack(path);
      if list.Some? {
        var xs := list.value;
        var i := 0;
        while i < |xs|
          invariant 0 <= i <= |xs|
          invariant Valid()
          invariant RetractAll(Facts(), xs[i..]) == RetractAll(old(Facts()), xs)
          invariant sourceFile == old(sourceFile) && tracking.lists == old(tracking.lists) - {path}
          invariant buffers == old(buffers) && workspaces == old(workspaces)
        {
          assert xs[i..][1..] == xs[i + 1..];
          RetractOne(xs[i]);
          i := i + 1;
        }
      }
    }

    /**
     * `set_file`: retract the file's old facts, let the indexers record
     * its new ones (`extraction`, the calls they make), then store the
     * buffer.
     */
    method SetFile(path: Path, content: string, extraction: seq<Mutation>)
      requires Valid()
      modifies this, tracking
      ensures Valid()
      ensures Snapshot() == Run(Clear(old(Snapshot()), path), extraction)
      ensures buffers == old(buffers)[path := content]
      ensures workspaces == old(workspaces)
    {
      ClearFromSource(path);
      ghost var cleared := Snapshot();
      var i := 0;
      while i < |extraction|
        invariant 0 <= i <= |extraction|
        invariant Valid()
        invariant Run(Snapshot(), extraction[i..]) == Run(cleared, extraction)
        invariant buffers == old(buffers) && workspaces == old(workspaces)
      {
        assert extraction[i..][1..] == extraction[i + 1..];
        ApplyMutation(extraction[i]);
        i := i + 1;
      }
      buffers := buffers[path := content];
    }

    /** `get_file` */
    function GetFile(path: Path): (r: Option<string>)
      reads this
      ensures r.Some? <==> path in buffers
      ensures r.Some? ==> r.value == buffers[path]
    {
      if path in buffers then Some(buffers[path]) else None
    }

    /** `del_file`: the buffer only; the file's facts stay indexed. */
    method DelFile(path: Path)
      modifies this
      ensures buffers == old(buffers) - {path}
      ensures Snapshot() == old(Snapshot()) && workspaces == old(workspaces)
    {
      buffers := buffers - {path};
    }

    /** `get_modules`: sorted, without duplicates, exactly the listed modules. */
    function GetModules(): (r: seq<string>)
      reads this
      ensures StrictlySorted(r)
      ensures forall m :: m in r <==> m in modules
    {
      SortedDistinct(modules)
    }

    /** `get_module_class_prefixes`: each module with `_` replaced by `\`. */
    function GetModuleClassPrefixes(): (r: seq<string>)
      reads this
      ensures |r| == |GetModules()|
      ensures forall i :: 0 <= i < |r| ==> |r[i]| == |GetModules()[i]|
      ensures forall i, j :: 0 <= i < |r| && 0 <= j < |r[i]| ==>
        r[i][j] == (if GetModules()[i][j] == '_' then '\\' else GetModules()[i][j])
    {
      var mods := GetModules();
      seq(|mods|, i requires 0 <= i < |mods| => ReplaceChar(mods[i], '_', '\\'))
    }

    /** `get_module_path` */
    function GetModulePath(name: string): (r: Option<Path>)
      reads this
      ensures r.Some? <==> name in modulePaths
      ensures r.Some? ==> r.value == modulePaths[name]
    {
      if name in modulePaths then Some(modulePaths[name]) else None
    }

    /** `get_component_map` in one area. */
    function GetComponentMap(name: string, area: Area): (r: Option<string>)
      reads this
      requires Valid()
      ensures r.Some? <==> name in jsMaps[AreaId(area)]
      ensures r.Some? ==> r.value == jsMaps[AreaId(area)][name]
    {
      var table := jsMaps[AreaId(area)];
      if name in table then Some(table[name]) else None
    }

    /** `get_component_maps_for_area`: every alias name of the area once. */
    method GetComponentMapsForArea(area: Area) returns (names: seq<string>)
      requires Valid()
      ensures Listing.Distinct(names)
      ensures forall n :: n in names <==> n in jsMaps[AreaId(area)]
    {
      names := Listing.Keys(jsMaps[AreaId(area)]);
    }

    /** `get_component_mixins_for_area`: the name's mixins, or none. */
    function GetComponentMixinsForArea(name: string, area: Area): (r: seq<Item>)
      reads this
      requires Valid()
      ensures name in jsMixins[AreaId(area)] ==> r == jsMixins[AreaId(area)][name]
      ensures name !in jsMixins[AreaId(area)] ==> r == []
    {
      var table := jsMixins[AreaId(area)];
      if name in table then table[name] else []
    }

    /** `list_front_themes_paths` */
    method ListFrontThemesPaths() returns (paths: seq<Path>, ghost order: seq<string>)
      ensures |paths| == |order| == |frontThemes|
      ensures Listing.Distinct(order) && forall n :: n in order <==> n in frontThemes
      ensures forall i :: 0 <= i < |paths| ==> order[i] in frontThemes && paths[i] == frontThemes[order[i]]
    {
      paths, order := Listing.Values(frontThemes);
    }

    /** `list_admin_themes_paths` */
    method ListAdminThemesPaths() returns (paths: seq<Path>, ghost order: seq<string>)
      ensures |paths| == |order| == |adminThemes|
      ensures Listing.Distinct(order) && forall n :: n in order <==> n in adminThemes
      ensures forall i :: 0 <= i < |paths| ==> order[i] in adminThemes && paths[i] == adminThemes[order[i]]
    {
      paths, order := Listing.Values(adminThemes);
    }

    /** `add_workspace_path`: append, duplicates included. */
    method AddWorkspacePath(path: Path)
      modifies this
      ensures workspaces == old(workspaces) + [path]
      ensures Snapshot() == old(Snapshot()) && buffers == old(buffers)
    {
      workspaces := workspaces + [path];
    }

    /** `has_workspace_path` */
    function HasWorkspacePath(path: Path): (b: bool)
      reads this
      ensures b <==> exists i :: 0 <= i < |workspaces| && workspaces[i] == path
    {
      path in workspaces
    }

    /**
     * `update_index` without the indexing threads: a root already
     * registered starts nothing; a new root is registered and starts the
     * PHP and the JavaScript indexer.
     */
    method UpdateIndex(path: Path) returns (started: nat)
      modifies this
      ensures started == (if path in old(workspaces) then 0 else 2)
      ensures workspaces == Register(old(workspaces), path)
      ensures Snapshot() == old(Snapshot()) && buffers == old(buffers)
    {
      if HasWorkspacePath(path) {
        started := 0;
      } else {
        AddWorkspacePath(path);
        started := 2;
      }
    }

    /**
     * `get_item_from_position`: dispatch on `get_ext`. `jsItem` and
     * `xmlItem` are what the JavaScript and XML lookups of this
     * generation answer for the file; neither is part of this model.
     */
    function GetItemFromPosition(path: Path, jsItem: Option<Item>, xmlItem: Option<Item>): (r: Option<Item>)
      ensures GetExt(path) == "js" ==> r == jsItem
      ensures GetExt(path) == "xml" ==> r == xmlItem
      ensures GetExt(path) != "js" && GetExt(path) != "xml" ==> r.None?
    {
      var ext := GetExt(path);
      if ext == "js" then jsItem else if ext == "xml" then xmlItem else None
    }

    /**
     * `split_class_to_path_and_suffix`: pop segments off the class one
     * at a time and stop at the first remaining prefix that names a
     * module.
     */
    method SplitClassToPathAndSuffix(className: string) returns (r: Option<(Path, seq<string>)>)
      ensures r == SplitClass(modulePaths, className)
    {
      var parts := Split(className, '\\');
      ghost var all := parts;
      var suffix: seq<string> := [];
      while |parts| > 0
        invariant |parts| <= |all| && parts == all[..|parts|]
        invariant |suffix| == |all| - |parts|
        invariant BackToFront(all, suffix)
        invariant LongestRegisteredPrefix(modulePaths, all, |all|) ==
          LongestRegisteredPrefix(modulePaths, all, |parts|)
        decreases |parts|
      {
        var part := parts[|parts| - 1];
        parts := parts[..|parts| - 1];
        assert parts == all[..|parts|];
        BackToFrontStep(all, suffix);
        suffix := suffix + [part];
        var prefix := JoinWith(parts, '\\');
        var modulePath := GetModulePath(prefix);
        if modulePath.Some? {
          var ordered := Reversed(suffix);
          ReversedTail(all, suffix, |parts|);
          SplitFoundAt(modulePaths, className, |parts|);
          return Some((modulePath.value, ordered));
        }
        LongestStep(modulePaths, all, |parts| + 1);
      }
      return None;
    }
  }
}

/**
 * RequireJS identifiers in JavaScript files: the text of string nodes,
 * the `map`/`paths`/`mixins` sections of `requirejs-config.js`, alias
 * resolution through the component map, classification of a component
 * name, the component under the cursor and the `view/<area>/web`
 * candidates of a component file.
 */
module Js {
  import opened Options
  import opened Text
  import opened Paths
  import opened Ts
  import opened M2
  import opened Locations

  /** A syntax-tree node: its kind, its source text, its children and its span. */
  datatype JsNode = JsNode(kind: string, text: string, children: seq<JsNode>, span: Ts.Node)

  /**
   * A string node has a first child (its opening quote), and so on down
   * that first-child chain; without it `get_node_text` would call itself
   * on the same node forever.
   */
  predicate Delimited(n: JsNode)
    decreases n
  {
    n.kind == "string" ==> |n.children| > 0 && Delimited(n.children[0])
  }

  /**
   * `get_node_text`: the node's text without leading and trailing `\`;
   * for a string node, additionally without leading and trailing copies
   * of the first character of its first child's text (its quote).
   */
  function GetNodeText(n: JsNode): (r: string)
    requires Delimited(n)
    ensures |r| <= |n.text|
    ensures n.kind != "string" ==> r == Trim(n.text, '\\')
    ensures n.kind == "string" && |GetNodeText(n.children[0])| > 0 ==>
      var quote := GetNodeText(n.children[0])[0];
      |r| == 0 || (r[0] != quote && r[|r| - 1] != quote)
    ensures n.kind == "string" ==> var delimiter := GetNodeText(n.children[0]);
      r == if |delimiter| > 0 then Trim(Trim(n.text, '\\'), delimiter[0]) else Trim(n.text, '\\')
    decreases n
  {
    var result := Trim(n.text, '\\');
    if n.kind == "string" then
      var delimiter := GetNodeText(n.children[0]);
      if |delimiter| > 0 then Trim(result, delimiter[0]) else result
    else result
  }

  /**
   * A quoted identifier loses its quotes: `'jquery'` reads as `jquery`,
   * and so does every identifier that neither starts nor ends with a
   * quote or a backslash.
   */
  lemma {:induction false} GetNodeTextOfQuoted(n: JsNode, id: string)
    requires n.kind == "string" && |n.children| > 0
    requires n.children[0].kind != "string" && n.children[0].text == "'"
    requires n.text == "'" + id + "'"
    requires |id| == 0 || (id[0] != '\'' && id[0] != '\\' && id[|id| - 1] != '\'' && id[|id| - 1] != '\\')
    ensures Delimited(n) && GetNodeText(n) == id
  {
    QuoteNodeText(n.children[0]);
    UnquotedText(id);
  }

  /**
   * A quoted identifier with no quote or backslash at its ends has no
   * backslash to trim, and trimming its quotes gives the identifier.
   */
  lemma UnquotedText(id: string)
    requires |id| == 0 || (id[0] != '\'' && id[0] != '\\' && id[|id| - 1] != '\'' && id[|id| - 1] != '\\')
    ensures Trim("'" + id + "'", '\\') == "'" + id + "'"
    ensures Trim("'" + id + "'", '\'') == id
  {
    TrimUntouched("'" + id + "'", '\\');
    TrimEnclosed(id, '\'');
  }

  lemma QuoteNodeText(q: JsNode)
    requires q.kind != "string" && q.text == "'"
    ensures Delimited(q) && GetNodeText(q) == "'"
  {
    TrimUntouched("'", '\\');
  }

  // ---------------------------------------------------------------------
  // Sections of requirejs-config.js
  // ---------------------------------------------------------------------

  datatype JsType = MapSection | PathsSection | MixinsSection

  /** The section a config key names, if it is one of the three the server reads. */
  function KindOf(text: string): (r: Option<JsType>)
    ensures r == Some(MapSection) <==> text == "map"
    ensures r == Some(PathsSection) <==> text == "paths"
    ensures r == Some(MixinsSection) <==> text == "mixins"
    ensures r.None? <==> text !in {"map", "paths", "mixins"}
  {
    if text == "map" then Some(MapSection)
    else if text == "paths" then Some(PathsSection)
    else if text == "mixins" then Some(MixinsSection)
    else None
  }

  /** `get_kind`: the section named by a key node's text. */
  function GetKind(n: JsNode): (r: Option<JsType>)
    requires Delimited(n)
    ensures r.Some? ==> GetNodeText(n) in {"map", "paths", "mixins"}
    ensures r.None? ==> GetNodeText(n) !in {"map", "paths", "mixins"}
  {
    KindOf(GetNodeText(n))
  }

  // ---------------------------------------------------------------------
  // Alias resolution
  // ---------------------------------------------------------------------

  /** One step along the component map: a mapped name goes to its target. */
  function Follow(maps: map<string, string>, text: string): string {
    if text in maps then maps[text] else text
  }

  /** The name reached after `k` steps along the component map. */
  function Chain(maps: map<string, string>, text: string, k: nat): string
    decreases k
  {
    if k == 0 then text else Chain(maps, Follow(maps, text), k - 1)
  }

  /**
   * `resolve_component_text`: follow the component map until the name is
   * no longer mapped. The source recurses without bound; here each step
   * spends one unit of `fuel`, and running out gives None.
   */
  function ResolveComponentText(maps: map<string, string>, text: string, fuel: nat): (r: Option<string>)
    ensures r.Some? ==> r.value !in maps
    ensures text !in maps && fuel > 0 ==> r == Some(text)
    decreases fuel
  {
    if fuel == 0 then None
    else if text in maps then ResolveComponentText(maps, maps[text], fuel - 1)
    else Some(text)
  }

  /** Steps compose: k1 steps then k2 steps is k1 + k2 steps. */
  lemma {:induction false} ChainAdd(maps: map<string, string>, text: string, k1: nat, k2: nat)
    ensures Chain(maps, Chain(maps, text, k1), k2) == Chain(maps, text, k1 + k2)
    decreases k1
  {
    if k1 > 0 {
      ChainAdd(maps, Follow(maps, text), k1 - 1, k2);
    }
  }

  /**
   * A chain that reaches an unmapped name after `k` mapped steps resolves
   * to that name, given more than `k` units of fuel.
   */
  lemma {:induction false} ResolveFollowsChain(maps: map<string, string>, text: string, k: nat, fuel: nat)
    requires forall j :: 0 <= j < k ==> Chain(maps, text, j) in maps
    requires Chain(maps, text, k) !in maps
    requires fuel > k
    ensures ResolveComponentText(maps, text, fuel) == Some(Chain(maps, text, k))
    decreases k
  {
    if k > 0 {
      assert Chain(maps, text, 0) in maps;
      var next := maps[text];
      forall j | 0 <= j < k - 1
        ensures Chain(maps, next, j) in maps
      {
        assert Chain(maps, text, j + 1) in maps;
      }
      ResolveFollowsChain(maps, next, k - 1, fuel - 1);
    }
  }

  /**
   * A cycle of mapped names never resolves: the source recurses forever
   * on it, the model returns None whatever the fuel.
   */
  lemma {:induction false} ResolveCycle(maps: map<string, string>, text: string, n: nat, fuel: nat)
    requires n > 0
    requires forall j :: 0 <= j < n ==> Chain(maps, text, j) in maps
    requires Chain(maps, text, n) == text
    ensures ResolveComponentText(maps, text, fuel) == None
    decreases fuel
  {
    if fuel > 0 {
      assert Chain(maps, text, 0) in maps;
      var next := maps[text];
      forall j | 0 <= j < n
        ensures Chain(maps, next, j) in maps
      {
        if j < n - 1 {
          assert Chain(maps, text, j + 1) in maps;
        } else {
          assert Chain(maps, next, j) == Chain(maps, text, n);
        }
      }
      ChainAdd(maps, text, n, 1);
      assert Chain(maps, next, n) == Chain(maps, text, n + 1);
      ResolveCycle(maps, next, n, fuel - 1);
    }
  }

  /** The two-name cycle a <-> b never resolves. */
  lemma ResolveTwoCycle(a: string, b: string, fuel: nat)
    requires a != b
    ensures ResolveComponentText(map[a := b, b := a], a, fuel) == None
  {
    var maps := map[a := b, b := a];
    assert Chain(maps, a, 1) == b;
    ResolveCycle(maps, a, 2, fuel);
  }

  /** More fuel never changes a result that was reached. */
  lemma {:induction false} ResolveFuelMonotone(maps: map<string, string>, text: string, fuel: nat, more: nat)
    requires ResolveComponentText(maps, text, fuel).Some?
    requires more >= fuel
    ensures ResolveComponentText(maps, text, more) == ResolveComponentText(maps, text, fuel)
    decreases fuel
  {
    if text in maps {
      ResolveFuelMonotone(maps, maps[text], fuel - 1, more - 1);
    }
  }

  /**
   * The names a terminating chain passes through are distinct: a repeat
   * would make the chain cycle before it could reach an unmapped name.
   */
  lemma ChainDistinct(maps: map<string, string>, text: string, k: nat, j1: nat, j2: nat)
    requires forall j :: 0 <= j < k ==> Chain(maps, text, j) in maps
    requires Chain(maps, text, k) !in maps
    requires j1 < j2 <= k
    ensures Chain(maps, text, j1) != Chain(maps, text, j2)
  {
    var m := k - j2;
    ChainAdd(maps, text, j2, m);
    ChainAdd(maps, text, j1, m);
    assert Chain(maps, text, j1 + m) in maps;
  }

  /** Distinct elements of a set number at most its size. */
  lemma {:induction false} DistinctWithin<T>(xs: seq<T>, keys: set<T>)
    requires forall i :: 0 <= i < |xs| ==> xs[i] in keys
    requires forall i, j :: 0 <= i < j < |xs| ==> xs[i] != xs[j]
    ensures |xs| <= |keys|
  {
    if |xs| > 0 {
      var rest := keys - {xs[0]};
      forall i | 0 <= i < |xs[1..]|
        ensures xs[1..][i] in rest
      {
        assert xs[1..][i] == xs[i + 1] != xs[0];
      }
      DistinctWithin(xs[1..], rest);
    }
  }

  /** A chain that reaches an unmapped name does so within as many steps as there are aliases. */
  lemma ChainLengthBound(maps: map<string, string>, text: string, k: nat)
    requires forall j :: 0 <= j < k ==> Chain(maps, text, j) in maps
    requires Chain(maps, text, k) !in maps
    ensures k <= |maps|
  {
    var names := seq(k, j requires 0 <= j < k => Chain(maps, text, j));
    forall i, j | 0 <= i < j < |names|
      ensures names[i] != names[j]
    {
      ChainDistinct(maps, text, k, i, j);
    }
    DistinctWithin(names, maps.Keys);
  }

  /**
   * One unit of fuel per alias, and one more, resolves every chain that
   * ends: the model answers exactly what the unbounded recursion of the
   * source answers whenever that recursion stops.
   */
  lemma ResolveEnoughFuel(maps: map<string, string>, text: string, k: nat)
    requires forall j :: 0 <= j < k ==> Chain(maps, text, j) in maps
    requires Chain(maps, text, k) !in maps
    ensures k <= |maps|
    ensures ResolveComponentText(maps, text, |maps| + 1) == Some(Chain(maps, text, k))
  {
    ChainLengthBound(maps, text, k);
    ResolveFollowsChain(maps, text, k, |maps| + 1);
  }

  /** Whatever resolves is the end of the chain of aliases: its first unmapped name. */
  lemma {:induction false} ResolvedChainEnd(maps: map<string, string>, text: string, fuel: nat) returns (k: nat)
    requires ResolveComponentText(maps, text, fuel).Some?
    ensures k < fuel
    ensures forall j :: 0 <= j < k ==> Chain(maps, text, j) in maps
    ensures Chain(maps, text, k) !in maps
    ensures ResolveComponentText(maps, text, fuel) == Some(Chain(maps, text, k))
    decreases fuel
  {
    if text !in maps {
      k := 0;
    } else {
      var next := maps[text];
      var k' := ResolvedChainEnd(maps, next, fuel - 1);
      k := k' + 1;
      forall j | 0 <= j < k
        ensures Chain(maps, text, j) in maps
      {
        if j > 0 {
          assert Chain(maps, text, j) == Chain(maps, next, j - 1);
        }
      }
    }
  }

  // ---------------------------------------------------------------------
  // Classification of a component name
  // ---------------------------------------------------------------------

  /** The first `/`-separated segment of a component name. */
  function FirstSegment(text: string): (r: string)
    ensures r <= text && '/' !in r
    ensures '/' in text ==> r == text[..IndexOf(text, '/')]
    ensures '/' !in text ==> r == text
  {
    Split(text, '/')[0]
  }

  /** A name shaped like `Vendor_Module/some/file`. */
  predicate ModuleLike(text: string) {
    '/' in text
    && var m := text[..IndexOf(text, '/')];
    |m| > 0 && IsUppercase(m[0]) && CountChar(m, '_') == 1
  }

  /**
   * `text_to_component`: a name whose first segment starts with `.` is
   * relative to the directory of `file`; a `Vendor_Module/...` name is a
   * module component, and None when that module is unknown; anything
   * else is a plain component.
   */
  function TextToComponent(modulePaths: map<string, Path>, text: string, file: Path): (r: Option<Item>)
    ensures (r.Some? && r.value.RelComponent?) <==> |text| > 0 && text[0] == '.'
    ensures r.Some? && r.value.RelComponent? ==>
      r.value == RelComponent(text, if |file| == 0 then file else file[..|file| - 1])
    ensures (r.Some? && r.value.ModComponent?) <==> ModuleLike(text) && text[..IndexOf(text, '/')] in modulePaths
    ensures r.Some? && r.value.ModComponent? ==>
      r.value.moduleName + "/" + r.value.file == text
      && '/' !in r.value.moduleName
      && r.value.moduleName in modulePaths
      && r.value.modPath == modulePaths[r.value.moduleName]
    ensures r.None? <==> ModuleLike(text) && text[..IndexOf(text, '/')] !in modulePaths
    ensures r.Some? && r.value.Component? ==> r.value == Component(text)
    ensures r.Some? ==> r.value.RelComponent? || r.value.ModComponent? || r.value.Component?
  {
    var segments := Split(text, '/');
    var beginning := segments[0];
    var first := if |beginning| > 0 then beginning[0] else 'a';
    if first == '.' then
      Some(RelComponent(text, if |file| == 0 then file else file[..|file| - 1]))
    else if |segments| > 1 && CountChar(beginning, '_') == 1 && IsUppercase(first) then
      var slash := IndexOf(text, '/');
      assert text == beginning + "/" + text[slash + 1..];
      if beginning in modulePaths then
        Some(ModComponent(beginning, text[slash + 1..], modulePaths[beginning]))
      else None
    else
      assert '/' in text && |beginning| > 0 ==> beginning[0] == text[0];
      Some(Component(text))
  }

  /**
   * A registered `Vendor_Module/rest` name is the module component of
   * that module, with `rest` as its file.
   */
  lemma {:induction false} TextToComponentModule(m: string, rest: string, modPath: Path, file: Path)
    requires |m| > 0 && IsUppercase(m[0]) && CountChar(m, '_') == 1 && '/' !in m
    ensures TextToComponent(map[m := modPath], m + "/" + rest, file) == Some(ModComponent(m, rest, modPath))
  {
    var text := m + "/" + rest;
    IndexOfConcat(m, "/" + rest, '/');
    assert text == m + ("/" + rest);
    assert text[..|m|] == m;
    var r := TextToComponent(map[m := modPath], text, file);
    assert r.Some? && r.value.ModComponent?;
    var name := r.value.moduleName;
    assert text == name + ("/" + r.value.file);
    assert text[|name|] == '/';
    assert forall k :: 0 <= k < |m| ==> text[k] == m[k] && m[k] != '/';
    assert forall k :: 0 <= k < |name| ==> text[k] == name[k] && name[k] != '/';
    assert name == m;
    assert r.value.file == text[|m| + 1..] == rest;
  }

  /** The test case `Some_Module/some/view` in a registered module. */
  lemma TextToComponentSomeModule(m: string, rest: string, modPath: Path, file: Path)
    requires m == "Some_Module" && rest == "some/view"
    ensures TextToComponent(map[m := modPath], m + "/" + rest, file) == Some(ModComponent(m, rest, modPath))
  {
    SomeModuleIsModuleName(m);
    TextToComponentModule(m, rest, modPath, file);
  }

  lemma SomeModuleIsModuleName(m: string)
    requires m == "Some_Module"
    ensures |m| > 0 && IsUppercase(m[0]) && CountChar(m, '_') == 1 && '/' !in m
  {
    SomeModuleHasOneUnderscore(m);
  }

  lemma SomeModuleHasOneUnderscore(m: string)
    requires m == "Some_Module"
    ensures CountChar(m, '_') == 1
  {
    assert CountChar("Some_Module", '_') == 1;
  }

  /** Names that are neither relative nor module-shaped are kept whole. */
  lemma TextToComponentPlain(modulePaths: map<string, Path>, text: string, file: Path)
    requires text == "jquery" || text == "jquery-ui-modules/widget"
    ensures TextToComponent(modulePaths, text, file) == Some(Component(text))
  {
    if '/' in text {
      assert text == "jquery-ui-modules" + "/widget";
      IndexOfConcat("jquery-ui-modules", "/widget", '/');
      assert text[..IndexOf(text, '/')] == "jquery-ui-modules";
    }
    assert !ModuleLike(text);
  }

  // ---------------------------------------------------------------------
  // The component under the cursor
  // ---------------------------------------------------------------------

  /** Index of the first string node that covers the position. */
  function FirstAtPosition(strings: seq<JsNode>, pos: Position): (r: Option<nat>)
    ensures r.Some? ==> r.value < |strings| && NodeAtPosition(strings[r.value].span, pos)
    ensures r.Some? ==> forall j :: 0 <= j < r.value ==> !NodeAtPosition(strings[j].span, pos)
    ensures r.None? ==> forall j :: 0 <= j < |strings| ==> !NodeAtPosition(strings[j].span, pos)
  {
    if |strings| == 0 then None
    else if NodeAtPosition(strings[0].span, pos) then Some(0)
    else
      match FirstAtPosition(strings[1..], pos)
      case None => None
      case Some(i) => Some(i + 1)
  }

  /**
   * The item for the first `define([...])` string under the cursor: its
   * text, resolved through the component map (with one unit of fuel per
   * map entry and one more), then classified.
   */
  function ItemAt(maps: map<string, string>, modulePaths: map<string, Path>, strings: seq<JsNode>,
                  file: Path, pos: Position): (r: Option<Item>)
    requires forall i :: 0 <= i < |strings| ==> Delimited(strings[i])
    ensures FirstAtPosition(strings, pos).None? ==> r.None?
  {
    match FirstAtPosition(strings, pos)
    case None => None
    case Some(i) =>
      match ResolveComponentText(maps, GetNodeText(strings[i]), |maps| + 1)
      case None => None
      case Some(text) => TextToComponent(modulePaths, text, file)
  }

  /**
   * When the alias chain of the text under the cursor ends, after `k`
   * steps, the item is the classification of the name it ends at; the
   * fuel never cuts such a chain short.
   */
  lemma ItemAtChainEnd(maps: map<string, string>, modulePaths: map<string, Path>, strings: seq<JsNode>,
                       file: Path, pos: Position, k: nat)
    requires forall i :: 0 <= i < |strings| ==> Delimited(strings[i])
    requires FirstAtPosition(strings, pos).Some?
    requires var text := GetNodeText(strings[FirstAtPosition(strings, pos).value]);
      (forall j :: 0 <= j < k ==> Chain(maps, text, j) in maps) && Chain(maps, text, k) !in maps
    ensures var text := GetNodeText(strings[FirstAtPosition(strings, pos).value]);
      ItemAt(maps, modulePaths, strings, file, pos) == TextToComponent(modulePaths, Chain(maps, text, k), file)
  {
    var text := GetNodeText(strings[FirstAtPosition(strings, pos).value]);
    ResolveEnoughFuel(maps, text, k);
  }

  /**
   * `get_item_from_pos`: scan the matched strings in order and answer for
   * the first one the cursor is on.
   */
  method GetItemFromPos(maps: map<string, string>, modulePaths: map<string, Path>, strings: seq<JsNode>,
                        file: Path, pos: Position) returns (r: Option<Item>)
    requires forall i :: 0 <= i < |strings| ==> Delimited(strings[i])
    ensures r == ItemAt(maps, modulePaths, strings, file, pos)
  {
    var i := 0;
    while i < |strings|
      invariant 0 <= i <= |strings|
      invariant forall j :: 0 <= j < i ==> !NodeAtPosition(strings[j].span, pos)
    {
      if NodeAtPosition(strings[i].span, pos) {
        assert FirstAtPosition(strings, pos) == Some(i) by {
          FirstAtPositionIs(strings, pos, i);
        }
        var text := GetNodeText(strings[i]);
        var resolved := ResolveComponentText(maps, text, |maps| + 1);
        if resolved.None? {
          return None;
        }
        return TextToComponent(modulePaths, resolved.value, file);
      }
      i := i + 1;
    }
    return None;
  }

  lemma FirstAtPositionIs(strings: seq<JsNode>, pos: Position, i: nat)
    requires i < |strings| && NodeAtPosition(strings[i].span, pos)
    requires forall j :: 0 <= j < i ==> !NodeAtPosition(strings[j].span, pos)
    ensures FirstAtPosition(strings, pos) == Some(i)
  {
  }

  // ---------------------------------------------------------------------
  // Web candidates of a component
  // ---------------------------------------------------------------------

  /** The directories `make_web_uris` tries, in order. */
  const WebAreas: seq<string> := ["base", "frontend", "backend"]

  /** `<root>/view/<area>/web/<path>` with its extension set to `js`. */
  function WebCandidate(root: Path, area: string, path: Path): (r: Path)
    ensures IsComponent(area) && |path| > 0 ==> r == root + ["view", area, "web"] + SetExtension(path, "js")
  {
    var dir := Join(Join(Join(root, "view"), area), "web");
    if IsComponent(area) && |path| > 0 then
      WebDirOf(root, area);
      SetExtensionKeepsDir(dir, path, "js");
      SetExtension(dir + path, "js")
    else SetExtension(dir + path, "js")
  }

  lemma WebDirOf(root: Path, area: string)
    requires IsComponent(area)
    ensures Join(Join(Join(root, "view"), area), "web") == root + ["view", area, "web"]
  {
    ComponentsOfName("view");
    ComponentsOfName("web");
    ComponentsOfName(area);
  }

  /** The candidates for a list of area directories, in the list's order. */
  function WebCandidates(root: Path, areas: seq<string>, path: Path): (r: seq<Path>)
    ensures |r| == |areas|
  {
    if |areas| == 0 then []
    else WebCandidates(root, areas[..|areas| - 1], path) + [WebCandidate(root, areas[|areas| - 1], path)]
  }

  lemma WebCandidatesSnoc(root: Path, areas: seq<string>, i: nat, path: Path)
    requires i < |areas|
    ensures WebCandidates(root, areas[..i + 1], path) ==
      WebCandidates(root, areas[..i], path) + [WebCandidate(root, areas[i], path)]
  {
    assert areas[..i + 1][..i] == areas[..i];
  }

  lemma ExistingWebStep(root: Path, areas: seq<string>, i: nat, path: Path, files: set<Path>)
    requires i < |areas|
    ensures var c := WebCandidate(root, areas[i], path);
      Existing(WebCandidates(root, areas[..i + 1], path), files) ==
      Existing(WebCandidates(root, areas[..i], path), files) + (if c in files then [c] else [])
  {
    WebCandidatesSnoc(root, areas, i, path);
    ExistingSnoc(WebCandidates(root, areas[..i], path), WebCandidate(root, areas[i], path), files);
  }

  /**
   * `make_web_uris`: the web candidates that exist, in the order of the
   * area directories: base, frontend, backend.
   */
  method MakeWebUris(root: Path, path: Path, files: set<Path>) returns (result: seq<Path>)
    ensures result == Existing(WebCandidates(root, WebAreas, path), files)
  {
    result := ExistingWebCandidates(root, WebAreas, path, files);
  }

  /** The loop of `make_web_uris` over a list of area directories. */
  method ExistingWebCandidates(root: Path, areas: seq<string>, path: Path, files: set<Path>) returns (result: seq<Path>)
    ensures result == Existing(WebCandidates(root, areas, path), files)
  {
    result := [];
    var i := 0;
    while i < |areas|
      invariant 0 <= i <= |areas|
      invariant result == Existing(WebCandidates(root, areas[..i], path), files)
    {
      var maybeFile := WebCandidate(root, areas[i], path);
      ExistingWebStep(root, areas, i, path, files);
      if maybeFile in files {
        result := result + [maybeFile];
      }
      i := i + 1;
    }
    assert areas[..i] == areas;
  }
}

/**
 * The first-generation index of a Magento project: module, theme and
 * RequireJS tables kept in one object that the JavaScript and PHP
 * indexers fill and the editor requests read.
 */
module Indexing {
  import opened Options
  import opened Text
  import opened Paths
  import opened Ts
  import opened M2
  import Js
  import Xml
  import Listing

  class Indexer {
    /** Module name (`Vendor_Module` or `Vendor\Module`) to its directory. */
    var modules: map<string, Path>
    var frontThemes: map<string, Path>
    var adminThemes: map<string, Path>
    /** RequireJS `map` and `paths` aliases. */
    var jsMaps: map<string, string>
    /** RequireJS `mixins`: target component to mixin. */
    var jsMixins: map<string, string>
    const rootPath: Path

    /** `Indexer::new`: every table empty. */
    constructor(root: Path)
      ensures rootPath == root
      ensures modules == map[] && frontThemes == map[] && adminThemes == map[]
      ensures jsMaps == map[] && jsMixins == map[]
    {
      rootPath := root;
      modules := map[];
      frontThemes := map[];
      adminThemes := map[];
      jsMaps := map[];
      jsMixins := map[];
    }

    /** `get_module_path` */
    function GetModulePath(name: string): (r: Option<Path>)
      reads this
      ensures r.Some? <==> name in modules
      ensures r.Some? ==> r.value == modules[name]
    {
      Lookup(modules, name)
    }

    /** `add_module_path`: insert or overwrite. */
    method AddModulePath(name: string, path: Path)
      modifies this
      ensures modules == old(modules)[name := path]
      ensures frontThemes == old(frontThemes) && adminThemes == old(adminThemes)
      ensures jsMaps == old(jsMaps) && jsMixins == old(jsMixins)
    {
      modules := modules[name := path];
    }

    /** `add_admin_theme_path` */
    method AddAdminThemePath(name: string, path: Path)
      modifies this
      ensures adminThemes == old(adminThemes)[name := path]
      ensures modules == old(modules) && frontThemes == old(frontThemes)
      ensures jsMaps == old(jsMaps) && jsMixins == old(jsMixins)
    {
      adminThemes := adminThemes[name := path];
    }

    /** `add_front_theme_path` */
    method AddFrontThemePath(name: string, path: Path)
      modifies this
      ensures frontThemes == old(frontThemes)[name := path]
      ensures modules == old(modules) && adminThemes == old(adminThemes)
      ensures jsMaps == old(jsMaps) && jsMixins == old(jsMixins)
    {
      frontThemes := frontThemes[name := path];
    }

    /** `get_component_map` */
    function GetComponentMap(name: string): (r: Option<string>)
      reads this
      ensures r.Some? <==> name in jsMaps
      ensures r.Some? ==> r.value == jsMaps[name]
    {
      Lookup(jsMaps, name)
    }

    /** `add_component_map`: insert or overwrite, returning the value it replaced. */
    method AddComponentMap(name: string, val: string) returns (previous: Option<string>)
      modifies this
      ensures previous == Lookup(old(jsMaps), name)
      ensures jsMaps == old(jsMaps)[name := val]
      ensures modules == old(modules) && frontThemes == old(frontThemes) && adminThemes == old(adminThemes)
      ensures jsMixins == old(jsMixins)
    {
      previous := Lookup(jsMaps, name);
      jsMaps := jsMaps[name := val];
    }

    /** `add_component_mixin`: insert or overwrite, returning the value it replaced. */
    method AddComponentMixin(name: string, val: string) returns (previous: Option<string>)
      modifies this
      ensures previous == Lookup(old(jsMixins), name)
      ensures jsMixins == old(jsMixins)[name := val]
      ensures modules == old(modules) && frontThemes == old(frontThemes) && adminThemes == old(adminThemes)
      ensures jsMaps == old(jsMaps)
    {
      previous := Lookup(jsMixins, name);
      jsMixins := jsMixins[name := val];
    }

    /** `list_front_themes_paths`: every front theme directory once, in the map's order. */
    method ListFrontThemesPaths() returns (paths: seq<Path>, ghost order: seq<string>)
      ensures |paths| == |order| == |frontThemes|
      ensures Listing.Distinct(order) && forall n :: n in order <==> n in frontThemes
      ensures forall i :: 0 <= i < |paths| ==> order[i] in frontThemes && paths[i] == frontThemes[order[i]]
    {
      paths, order := Listing.Values(frontThemes);
    }

    /** `list_admin_themes_paths`: every admin theme directory once, in the map's order. */
    method ListAdminThemesPaths() returns (paths: seq<Path>, ghost order: seq<string>)
      ensures |paths| == |order| == |adminThemes|
      ensures Listing.Distinct(order) && forall n :: n in order <==> n in adminThemes
      ensures forall i :: 0 <= i < |paths| ==> order[i] in adminThemes && paths[i] == adminThemes[order[i]]
    {
      paths, order := Listing.Values(adminThemes);
    }

    /**
     * The item under the cursor: JavaScript files are read through the
     * RequireJS tables, XML files through their tags, anything else (or
     * a file without an extension) has none. `jsStrings` and `xmlNodes`
     * are what the respective parsers find in the file.
     */
    function ItemFromPosition(file: Path, pos: Position, jsStrings: seq<Js.JsNode>,
                              xmlNodes: seq<Xml.XmlNode>): (r: Option<Item>)
      reads this
      requires forall i :: 0 <= i < |jsStrings| ==> Js.Delimited(jsStrings[i])
      ensures Extension(file).None? ==> r.None?
      ensures Extension(file).Some? && ToLower(Extension(file).value) == "js" ==>
        r == Js.ItemAt(jsMaps, modules, jsStrings, file, pos)
      ensures Extension(file).Some? && ToLower(Extension(file).value) == "xml" ==>
        r == Xml.ItemAtPosition(xmlNodes, pos)
      ensures Extension(file).Some? ==>
        (ToLower(Extension(file).value) != "js" && ToLower(Extension(file).value) != "xml" ==> r.None?)
    {
      match Extension(file)
      case None => None
      case Some(ext) =>
        var lower := ToLower(ext);
        if lower == "js" then Js.ItemAt(jsMaps, modules, jsStrings, file, pos)
        else if lower == "xml" then Xml.ItemAtPosition(xmlNodes, pos)
        else None
    }

    /** `get_item_from_position`: dispatch on the lower-cased extension. */
    method GetItemFromPosition(file: Path, pos: Position, jsStrings: seq<Js.JsNode>,
                               xmlNodes: seq<Xml.XmlNode>) returns (r: Option<Item>)
      requires forall i :: 0 <= i < |jsStrings| ==> Js.Delimited(jsStrings[i])
      ensures r == ItemFromPosition(file, pos, jsStrings, xmlNodes)
    {
      var ext := Extension(file);
      if ext.None? {
        return None;
      }
      var lower := ToLower(ext.value);
      if lower == "js" {
        r := Js.GetItemFromPos(jsMaps, modules, jsStrings, file, pos);
      } else if lower == "xml" {
        r := Xml.GetItemFromPosition(xmlNodes, pos);
      } else {
        r := None;
      }
    }
  }

  /** `HashMap::get(..).cloned()` */
  function Lookup<K, V>(m: map<K, V>, k: K): (r: Option<V>)
    ensures r.Some? <==> k in m
    ensures r.Some? ==> r.value == m[k]
  {
    if k in m then Some(m[k]) else None
  }
}

/**
 * `get_location_from_params`: the item under the cursor picks exactly
 * one finder. The component and template finders always answer a list
 * (perhaps empty); a relative component whose file is missing, and a
 * class, method or constant that cannot be found, make the whole answer
 * "nothing" instead.
 */
module Definition {
  import opened Options
  import opened Paths
  import opened M2
  import opened Locations
  import opened Php
  import opened DefinitionPhtml
  import opened DefinitionComponent
  import opened DefinitionPhp
  import Store

  /** One location as a list, or nothing. */
  function Single(l: Option<Location>): (r: Option<seq<Location>>)
    ensures r.Some? <==> l.Some?
    ensures r.Some? ==> r.value == [l.value]
  {
    if l.None? then None else Some([l.value])
  }

  /**
   * The answer for `item`, given the theme orders of the two theme maps.
   * `path` is the edited file; `files` are the existing files and
   * `sources` the existing PHP files with their query matches.
   */
  function Definitions(st: Store.State, item: Option<Item>, path: Path, files: set<Path>,
                       sources: map<Path, seq<PhpMatch>>,
                       frontOrder: seq<string>, adminOrder: seq<string>): (r: Option<seq<Location>>)
    reads st
    requires st.Valid()
  {
    match item
    case None => None
    case Some(ModComponent(modName, filePath, modPath)) =>
      Some(Locate(AllCandidates(SearchedComponents(st, modName, filePath, modPath, path), GetArea(path)), files))
    case Some(RelComponent(comp, dir)) => FindRel(comp, dir, files)
    case Some(Component(comp)) => Some(Locate(PlainCandidates(st.workspaces, comp), files))
    case Some(AdminPhtml(modName, template)) =>
      Some(Locate(TemplateCandidates(st.GetModulePath(modName), Adminhtml,
                                     ThemeDirs(st.adminThemes, adminOrder), modName, template), files))
    case Some(FrontPhtml(modName, template)) =>
      Some(Locate(TemplateCandidates(st.GetModulePath(modName), Frontend,
                                     ThemeDirs(st.frontThemes, frontOrder), modName, template), files))
    case Some(BasePhtml(modName, template)) =>
      Some(Locate(TemplateCandidates(st.GetModulePath(modName), Base,
                                     ThemeDirs(st.frontThemes, frontOrder) + ThemeDirs(st.adminThemes, adminOrder),
                                     modName, template), files))
    case Some(Class(cls)) =>
      var c := PhpClassOf(st.modulePaths, cls, sources);
      Single(if c.None? then None else Some(Location(c.value.uri, c.value.range)))
    case Some(Method(cls, methodName)) =>
      var c := PhpClassOf(st.modulePaths, cls, sources);
      Single(if c.None? then None
             else Some(Location(c.value.uri, if methodName in c.value.methods then c.value.methods[methodName].range
                                              else c.value.range)))
    case Some(Const(cls, constant)) =>
      var c := PhpClassOf(st.modulePaths, cls, sources);
      Single(if c.None? then None
             else Some(Location(c.value.uri, if constant in c.value.constants then c.value.constants[constant].range
                                              else c.value.range)))
  }

  /**
   * The answer is "nothing" exactly when there is no item, when a
   * relative component's file is missing, or when a class, method or
   * constant's class cannot be found; every other item gets a list.
   */
  lemma {:induction false} DefinitionsNone(st: Store.State, item: Option<Item>, path: Path, files: set<Path>,
                                           sources: map<Path, seq<PhpMatch>>,
                                           frontOrder: seq<string>, adminOrder: seq<string>)
    requires st.Valid()
    ensures Definitions(st, item, path, files, sources, frontOrder, adminOrder).None? <==>
      item.None?
      || (item.value.RelComponent? && RelCandidate(item.value.text, item.value.dir) !in files)
      || ((item.value.Class? || item.value.Method? || item.value.Const?)
          && PhpClassOf(st.modulePaths, item.value.cls, sources).None?)
  {
  }

  /** Every location of a component or template answer names an existing file at its start. */
  lemma DefinitionsExist(st: Store.State, item: Option<Item>, path: Path, files: set<Path>,
                         sources: map<Path, seq<PhpMatch>>,
                         frontOrder: seq<string>, adminOrder: seq<string>)
    requires st.Valid()
    requires item.Some? && !(item.value.Class? || item.value.Method? || item.value.Const?)
    requires Definitions(st, item, path, files, sources, frontOrder, adminOrder).Some?
    ensures forall l :: l in Definitions(st, item, path, files, sources, frontOrder, adminOrder).value ==>
      l.uri in files && l.range == DefaultRange
  {
    var r := Definitions(st, item, path, files, sources, frontOrder, adminOrder).value;
    match item.value {
      case ModComponent(modName, filePath, modPath) =>
        LocateExisting(AllCandidates(SearchedComponents(st, modName, filePath, modPath, path), GetArea(path)), files);
      case RelComponent(comp, dir) =>
      case Component(comp) =>
        LocateExisting(PlainCandidates(st.workspaces, comp), files);
      case AdminPhtml(modName, template) =>
        LocateExisting(TemplateCandidates(st.GetModulePath(modName), Adminhtml,
                                          ThemeDirs(st.adminThemes, adminOrder), modName, template), files);
      case FrontPhtml(modName, template) =>
        LocateExisting(TemplateCandidates(st.GetModulePath(modName), Frontend,
                                          ThemeDirs(st.frontThemes, frontOrder), modName, template), files);
      case BasePhtml(modName, template) =>
        LocateExisting(TemplateCandidates(st.GetModulePath(modName), Base,
                                          ThemeDirs(st.frontThemes, frontOrder) + ThemeDirs(st.adminThemes, adminOrder),
                                          modName, template), files);
    }
  }

  /** The component finders of `get_location_from_params`. */
  method FindComponent(st: Store.State, item: Item, path: Path, files: set<Path>,
                       ghost sources: map<Path, seq<PhpMatch>>, ghost frontOrder: seq<string>,
                       ghost adminOrder: seq<string>)
    returns (r: Option<seq<Location>>)
    requires st.Valid()
    requires item.ModComponent? || item.RelComponent? || item.Component?
    ensures r == Definitions(st, Some(item), path, files, sources, frontOrder, adminOrder)
  {
    match item {
      case ModComponent(modName, filePath, modPath) =>
        var locations := ModLocation(st, modName, filePath, modPath, path, files);
        r := Some(locations);
      case RelComponent(comp, dir) =>
        r := FindRel(comp, dir, files);
      case Component(comp) =>
        var locations := FindPlain(st, comp, files);
        r := Some(locations);
    }
  }

  /** The template finders of `get_location_from_params`. */
  method FindTemplate(st: Store.State, item: Item, ghost path: Path, files: set<Path>,
                      ghost sources: map<Path, seq<PhpMatch>>)
    returns (r: seq<Location>, ghost frontOrder: seq<string>, ghost adminOrder: seq<string>)
    requires st.Valid()
    requires item.AdminPhtml? || item.FrontPhtml? || item.BasePhtml?
    ensures (item.FrontPhtml? || item.BasePhtml?) ==> Enumerates(frontOrder, st.frontThemes)
    ensures (item.AdminPhtml? || item.BasePhtml?) ==> Enumerates(adminOrder, st.adminThemes)
    ensures Some(r) == Definitions(st, Some(item), path, files, sources, frontOrder, adminOrder)
  {
    frontOrder, adminOrder := [], [];
    match item {
      case AdminPhtml(modName, template) =>
        r, adminOrder := FindAdmin(st, modName, template, files);
      case FrontPhtml(modName, template) =>
        r, frontOrder := FindFront(st, modName, template, files);
      case BasePhtml(modName, template) =>
        r, frontOrder, adminOrder := FindBase(st, modName, template, files);
    }
  }

  /** The PHP finders of `get_location_from_params`. */
  method FindPhp(st: Store.State, item: Item, ghost path: Path, ghost files: set<Path>,
                 sources: map<Path, seq<PhpMatch>>, ghost frontOrder: seq<string>, ghost adminOrder: seq<string>)
    returns (r: Option<seq<Location>>)
    requires st.Valid()
    requires item.Class? || item.Method? || item.Const?
    ensures r == Definitions(st, Some(item), path, files, sources, frontOrder, adminOrder)
  {
    match item {
      case Class(cls) =>
        var location := FindClass(st, cls, sources);
        r := Single(location);
      case Method(cls, methodName) =>
        var location := FindMethod(st, cls, methodName, sources);
        r := Single(location);
      case Const(cls, constant) =>
        var location := FindConst(st, cls, constant, sources);
        r := Single(location);
    }
  }

  /**
   * `get_location_from_params`: `jsItem` and `xmlItem` are what the
   * JavaScript and XML lookups answer for the edited file at the cursor.
   */
  method GetLocationFromParams(st: Store.State, path: Path, jsItem: Option<Item>, xmlItem: Option<Item>,
                               files: set<Path>, sources: map<Path, seq<PhpMatch>>)
    returns (r: Option<seq<Location>>, ghost frontOrder: seq<string>, ghost adminOrder: seq<string>)
    requires st.Valid()
    ensures var item := st.GetItemFromPosition(path, jsItem, xmlItem);
      (item.Some? && (item.value.FrontPhtml? || item.value.BasePhtml?) ==> Enumerates(frontOrder, st.frontThemes))
      && (item.Some? && (item.value.AdminPhtml? || item.value.BasePhtml?) ==> Enumerates(adminOrder, st.adminThemes))
    ensures r == Definitions(st, st.GetItemFromPosition(path, jsItem, xmlItem), path, files, sources, frontOrder, adminOrder)
  {
    frontOrder, adminOrder := [], [];
    var item := st.GetItemFromPosition(path, jsItem, xmlItem);
    if item.None? {
      return None, frontOrder, adminOrder;
    }
    match item.value {
      case ModComponent(_, _, _) =>
        r := FindComponent(st, item.value, path, files, sources, frontOrder, adminOrder);
      case RelComponent(_, _) =>
        r := FindComponent(st, item.value, path, files, sources, frontOrder, adminOrder);
      case Component(_) =>
        r := FindComponent(st, item.value, path, files, sources, frontOrder, adminOrder);
      case AdminPhtml(_, _) =>
        var locations;
        locations, frontOrder, adminOrder := FindTemplate(st, item.value, path, files, sources);
        r := Some(locations);
      case FrontPhtml(_, _) =>
        var locations;
        locations, frontOrder, adminOrder := FindTemplate(st, item.value, path, files, sources);
        r := Some(locations);
      case BasePhtml(_, _) =>
        var locations;
        locations, frontOrder, adminOrder := FindTemplate(st, item.value, path, files, sources);
        r := Some(locations);
      case Class(_) =>
        r := FindPhp(st, item.value, path, files, sources, frontOrder, adminOrder);
      case Method(_, _) =>
        r := FindPhp(st, item.value, path, files, sources, frontOrder, adminOrder);
      case Const(_, _) =>
        r := FindPhp(st, item.value, path, files, sources, frontOrder, adminOrder);
    }
  }
}

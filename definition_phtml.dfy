/**
 * Go-to-definition for a template reference (`Vendor_Module::path.phtml`):
 * the module's `view/<area>/templates` directories for the area's
 * candidates, then `<theme>/<Vendor_Module>/templates` of every theme
 * searched, keeping the files that exist, in that order.
 */
module DefinitionPhtml {
  import opened Options
  import opened Paths
  import opened M2
  import opened Locations
  import opened Candidates
  import Store
  import Listing

  /** The directory names of a template path. */
  const ViewDir: string := "view"
  const TemplatesDir: string := "templates"

  /** `order` lists every theme of the map exactly once. */
  ghost predicate Enumerates(order: seq<string>, themes: map<string, Path>) {
    Listing.Distinct(order) && forall n :: n in order <==> n in themes
  }

  /** The directories of the themes named by `order`, in that order. */
  function ThemeDirs(themes: map<string, Path>, order: seq<string>): (r: seq<Path>)
    ensures |r| <= |order|
  {
    if |order| == 0 then []
    else
      var before := ThemeDirs(themes, order[..|order| - 1]);
      var n := order[|order| - 1];
      if n in themes then before + [themes[n]] else before
  }

  lemma {:induction false} ThemeDirsAll(themes: map<string, Path>, order: seq<string>)
    requires forall i :: 0 <= i < |order| ==> order[i] in themes
    ensures |ThemeDirs(themes, order)| == |order|
    ensures forall i :: 0 <= i < |order| ==> ThemeDirs(themes, order)[i] == themes[order[i]]
    decreases |order|
  {
    if |order| > 0 {
      ThemeDirsAll(themes, order[..|order| - 1]);
    }
  }

  /** `view/<a>/templates/<template>` under the module for each of the area's candidates. */
  function ModuleTemplates(modPath: Option<Path>, area: Area, template: string): (r: seq<Path>)
    ensures modPath.None? ==> r == []
    ensures modPath.Some? ==> |r| == |PathCandidates(area)|
  {
    if modPath.None? then []
    else Across(modPath.value, PathCandidates(area), [ViewDir], [TemplatesDir, template], None)
  }

  /** `<theme>/<module>/templates/<template>` for each theme directory, in order. */
  function ThemeTemplates(themeDirs: seq<Path>, modName: string, template: string): (r: seq<Path>)
    ensures |r| == |themeDirs|
  {
    Under(themeDirs, [modName, TemplatesDir, template], None)
  }

  /** Every candidate of a template lookup, in the order they are tried. */
  function TemplateCandidates(modPath: Option<Path>, area: Area, themeDirs: seq<Path>,
                              modName: string, template: string): (r: seq<Path>)
  {
    ModuleTemplates(modPath, area, template) + ThemeTemplates(themeDirs, modName, template)
  }

  /**
   * The module candidates are the module directory followed by
   * `view`, the area directory, `templates` and the template's own
   * components, area directories in fallback order.
   */
  lemma ModuleTemplateShape(modPath: Path, area: Area, template: string, i: nat)
    requires i < |PathCandidates(area)|
    ensures ModuleTemplates(Some(modPath), area, template)[i]
         == modPath + [ViewDir, PathCandidates(area)[i], TemplatesDir] + Components(template)
  {
    var a := PathCandidates(area)[i];
    assert [ViewDir] + [a] + [TemplatesDir, template] == [ViewDir, a, TemplatesDir] + [template];
    AppendNames(modPath, [ViewDir, a, TemplatesDir], template);
  }

  /**
   * A module that is not registered contributes no candidates; the
   * themes are searched all the same.
   */
  lemma UnregisteredModuleSearchesThemes(area: Area, themeDirs: seq<Path>, modName: string,
                                         template: string, files: set<Path>)
    ensures Locate(TemplateCandidates(None, area, themeDirs, modName, template), files)
         == Locate(ThemeTemplates(themeDirs, modName, template), files)
  {
    assert TemplateCandidates(None, area, themeDirs, modName, template)
        == ThemeTemplates(themeDirs, modName, template);
  }

  /**
   * Every location found is an existing candidate at the start of the
   * file, and there are at most as many as the area's view directories
   * plus the themes searched.
   */
  lemma TemplateLocationsBound(modPath: Option<Path>, area: Area, themeDirs: seq<Path>,
                               modName: string, template: string, files: set<Path>)
    ensures var cands := TemplateCandidates(modPath, area, themeDirs, modName, template);
      |Locate(cands, files)| <= |PathCandidates(area)| + |themeDirs|
      && forall l :: l in Locate(cands, files) ==> l.uri in files && l.uri in cands && l.range == DefaultRange
  {
    LocateExisting(TemplateCandidates(modPath, area, themeDirs, modName, template), files);
  }

  /**
   * The module's own templates are reported before any theme's:
   * locating the candidates locates the module part, then the theme part.
   */
  lemma ModuleBeforeThemes(modPath: Option<Path>, area: Area, themeDirs: seq<Path>,
                           modName: string, template: string, files: set<Path>)
    ensures Locate(TemplateCandidates(modPath, area, themeDirs, modName, template), files)
         == Locate(ModuleTemplates(modPath, area, template), files)
          + Locate(ThemeTemplates(themeDirs, modName, template), files)
  {
    LocateAppend(ModuleTemplates(modPath, area, template), ThemeTemplates(themeDirs, modName, template), files);
  }

  /** A base template is looked up in the module, then the front themes, then the admin themes. */
  lemma BaseSearchesBothThemes(modPath: Option<Path>, front: seq<Path>, admin: seq<Path>,
                               modName: string, template: string, files: set<Path>)
    ensures Locate(TemplateCandidates(modPath, Base, front + admin, modName, template), files)
         == Locate(ModuleTemplates(modPath, Base, template), files)
          + Locate(ThemeTemplates(front, modName, template), files)
          + Locate(ThemeTemplates(admin, modName, template), files)
  {
    UnderAppend(front, admin, [modName, TemplatesDir, template], None);
    LocateAppend(ThemeTemplates(front, modName, template), ThemeTemplates(admin, modName, template), files);
    ModuleBeforeThemes(modPath, Base, front + admin, modName, template, files);
  }

  /** `add_phtml_in_mod_location` */
  method AddPhtmlInModLocation(st: Store.State, result: seq<Location>, modName: string, template: string,
                               area: Area, files: set<Path>) returns (r: seq<Location>)
    ensures r == result + Locate(ModuleTemplates(st.GetModulePath(modName), area, template), files)
  {
    r := result;
    var modPath := st.GetModulePath(modName);
    if modPath.Some? {
      r := PushAcross(r, modPath.value, PathCandidates(area), [ViewDir], [TemplatesDir, template], None, files);
    }
  }

  /** The theme loop shared by the admin and the front helper. */
  method AddPhtmlInThemes(result: seq<Location>, themeDirs: seq<Path>, modName: string, template: string,
                          files: set<Path>) returns (r: seq<Location>)
    ensures r == result + Locate(ThemeTemplates(themeDirs, modName, template), files)
  {
    r := PushUnder(result, themeDirs, [modName, TemplatesDir, template], None, files);
  }

  /** `add_phtml_in_admin_theme_location`: the admin themes in the map's order. */
  method AddPhtmlInAdminThemeLocation(st: Store.State, result: seq<Location>, modName: string, template: string,
                                      files: set<Path>) returns (r: seq<Location>, ghost order: seq<string>)
    ensures Enumerates(order, st.adminThemes)
    ensures r == result + Locate(ThemeTemplates(ThemeDirs(st.adminThemes, order), modName, template), files)
  {
    var dirs;
    dirs, order := st.ListAdminThemesPaths();
    ThemeDirsAll(st.adminThemes, order);
    assert dirs == ThemeDirs(st.adminThemes, order);
    r := AddPhtmlInThemes(result, dirs, modName, template, files);
  }

  /** `add_phtml_in_front_theme_location`: the front themes in the map's order. */
  method AddPhtmlInFrontThemeLocation(st: Store.State, result: seq<Location>, modName: string, template: string,
                                      files: set<Path>) returns (r: seq<Location>, ghost order: seq<string>)
    ensures Enumerates(order, st.frontThemes)
    ensures r == result + Locate(ThemeTemplates(ThemeDirs(st.frontThemes, order), modName, template), files)
  {
    var dirs;
    dirs, order := st.ListFrontThemesPaths();
    ThemeDirsAll(st.frontThemes, order);
    assert dirs == ThemeDirs(st.frontThemes, order);
    r := AddPhtmlInThemes(result, dirs, modName, template, files);
  }

  /** `find_admin`: adminhtml then base module templates, then the admin themes. */
  method FindAdmin(st: Store.State, modName: string, template: string, files: set<Path>)
    returns (r: seq<Location>, ghost adminOrder: seq<string>)
    ensures Enumerates(adminOrder, st.adminThemes)
    ensures r == Locate(TemplateCandidates(st.GetModulePath(modName), Adminhtml,
                                           ThemeDirs(st.adminThemes, adminOrder), modName, template), files)
  {
    var modLocations := AddPhtmlInModLocation(st, [], modName, template, Adminhtml, files);
    assert modLocations == Locate(ModuleTemplates(st.GetModulePath(modName), Adminhtml, template), files);
    r, adminOrder := AddPhtmlInAdminThemeLocation(st, modLocations, modName, template, files);
    ModuleBeforeThemes(st.GetModulePath(modName), Adminhtml, ThemeDirs(st.adminThemes, adminOrder),
                       modName, template, files);
  }

  /** `find_front`: frontend then base module templates, then the front themes. */
  method FindFront(st: Store.State, modName: string, template: string, files: set<Path>)
    returns (r: seq<Location>, ghost frontOrder: seq<string>)
    ensures Enumerates(frontOrder, st.frontThemes)
    ensures r == Locate(TemplateCandidates(st.GetModulePath(modName), Frontend,
                                           ThemeDirs(st.frontThemes, frontOrder), modName, template), files)
  {
    var modLocations := AddPhtmlInModLocation(st, [], modName, template, Frontend, files);
    assert modLocations == Locate(ModuleTemplates(st.GetModulePath(modName), Frontend, template), files);
    r, frontOrder := AddPhtmlInFrontThemeLocation(st, modLocations, modName, template, files);
    ModuleBeforeThemes(st.GetModulePath(modName), Frontend, ThemeDirs(st.frontThemes, frontOrder),
                       modName, template, files);
  }

  /** `find_base`: frontend, adminhtml and base module templates, then front themes, then admin themes. */
  method FindBase(st: Store.State, modName: string, template: string, files: set<Path>)
    returns (r: seq<Location>, ghost frontOrder: seq<string>, ghost adminOrder: seq<string>)
    ensures Enumerates(frontOrder, st.frontThemes) && Enumerates(adminOrder, st.adminThemes)
    ensures r == Locate(TemplateCandidates(st.GetModulePath(modName), Base,
                                           ThemeDirs(st.frontThemes, frontOrder) + ThemeDirs(st.adminThemes, adminOrder),
                                           modName, template), files)
  {
    var modLocations := AddPhtmlInModLocation(st, [], modName, template, Base, files);
    assert modLocations == Locate(ModuleTemplates(st.GetModulePath(modName), Base, template), files);
    var withFront;
    withFront, frontOrder := AddPhtmlInFrontThemeLocation(st, modLocations, modName, template, files);
    r, adminOrder := AddPhtmlInAdminThemeLocation(st, withFront, modName, template, files);
    BaseSearchesBothThemes(st.GetModulePath(modName), ThemeDirs(st.frontThemes, frontOrder),
                           ThemeDirs(st.adminThemes, adminOrder), modName, template, files);
  }
}

/**
 * Completion in XML files: class names (the registered modules' class
 * prefixes, then the PHP classes of the typed module) and template
 * references (module names, then the `.phtml` files of the named
 * module), chosen by the attribute or node the cursor is in.
 */
module Completion {
  import opened Options
  import opened Text
  import opened Paths
  import opened Ts
  import opened M2
  import Store
  import Xml

  datatype CompletionKind = ClassKind | ModuleKind | FileKind

  /** A suggestion: its label (`name`), its kind, and the range it replaces when it has an edit. */
  datatype CompletionItem = CompletionItem(name: string, kind: CompletionKind, edit: Option<Range>)

  /** The XML paths `match_path` is asked about, in the order the arms test them. */
  datatype XmlPattern =
    | TemplateAttr     // `[@template]`
    | EventName        // `/config/event[@name]`
    | PreferenceFor    // `/config/preference[@for]`
    | PreferenceType   // `/config/preference[@type]`
    | ClassAttr        // `[@class]`
    | InstanceAttr     // `[@instance]`
    | ArgumentNode     // `/type/arguments/argument`

  /** What `get_current_position_path` reports at the cursor: the paths it matches, its text and range. */
  datatype CursorNode = CursorNode(matches: set<XmlPattern>, text: string, range: Range)

  const RegistrationSuffix: string := "\\registration"
  const PhpSuffix: string := ".php"
  const ViewDir: string := "view"
  const TemplatesDir: string := "templates"
  const ModuleSeparator: string := "::"
  const EventsXml: string := "events.xml"
  const DiXml: string := "di.xml"
  const XmlExt: string := "xml"

  /** `path.is_xml()`, read as: the lower-cased extension is "xml". */
  predicate IsXml(path: Path) {
    GetExt(path) == XmlExt
  }

  /** `path.ends_with(name)`: the last component is `name`. */
  predicate EndsWithFile(path: Path, name: string) {
    |path| > 0 && path[|path| - 1] == name
  }

  // ---------------------------------------------------------------------
  // Class completion
  // ---------------------------------------------------------------------

  /** `completion_for_classes_prefix`: one class item per module prefix, replacing `range`. */
  function PrefixItems(st: Store.State, range: Range): (r: seq<CompletionItem>)
    reads st
    ensures |r| == |st.GetModules()|
    ensures forall i :: 0 <= i < |r| ==>
      r[i].kind == ClassKind && r[i].edit == Some(range)
      && r[i].name == ReplaceChar(st.GetModules()[i], '_', '\\') && '_' !in r[i].name
  {
    var prefixes := st.GetModuleClassPrefixes();
    seq(|prefixes|, i requires 0 <= i < |prefixes| => CompletionItem(prefixes[i], ClassKind, Some(range)))
  }

  /** The class a PHP file under the module directory names. */
  function ClassCandidate(moduleClass: string, modPath: Path, file: Path): (r: string)
    ensures moduleClass + "\\" <= r
    ensures !EndsWith(r[|moduleClass| + 1..], PhpSuffix)
  {
    moduleClass + "\\" + TrimSuffix(JoinWith(RelativeTo(file, modPath), '\\'), PhpSuffix)
  }

  /** The filter of `completion_for_classes_full`: no registration file, and the typed namespace as prefix. */
  predicate Keep(cls: string, typedPrefix: string) {
    !EndsWith(cls, RegistrationSuffix) && StartsWith(cls, typedPrefix)
  }

  /** The class items of the globbed files, in glob order. */
  function FullItems(moduleClass: string, modPath: Path, files: seq<Path>, typedPrefix: string,
                     range: Range): (r: seq<CompletionItem>)
    ensures |r| <= |files|
  {
    if |files| == 0 then []
    else
      var before := FullItems(moduleClass, modPath, files[..|files| - 1], typedPrefix, range);
      var cls := ClassCandidate(moduleClass, modPath, files[|files| - 1]);
      if Keep(cls, typedPrefix) then before + [CompletionItem(cls, ClassKind, Some(range))] else before
  }

  /**
   * An item is offered exactly when some globbed file names a class that
   * passes the filter; every item is a class replacing `range`.
   */
  lemma {:induction false} FullItemsMembers(moduleClass: string, modPath: Path, files: seq<Path>,
                                            typedPrefix: string, range: Range)
    ensures forall it :: it in FullItems(moduleClass, modPath, files, typedPrefix, range) <==>
      exists f :: f in files && it == CompletionItem(ClassCandidate(moduleClass, modPath, f), ClassKind, Some(range))
                  && Keep(ClassCandidate(moduleClass, modPath, f), typedPrefix)
    decreases |files|
  {
    if |files| > 0 {
      var init := files[..|files| - 1];
      FullItemsMembers(moduleClass, modPath, init, typedPrefix, range);
      assert files == init + [files[|files| - 1]];
      assert forall f :: f in files <==> f in init || f == files[|files| - 1];
    }
  }

  /** `completion_for_classes_full` as a value; `phpFiles(dir)` is what the glob `<dir>/**/*.php` yields. */
  function FullCompletion(st: Store.State, text: string, range: Range,
                          phpFiles: Path -> seq<Path>): (r: Option<seq<CompletionItem>>)
    reads st
  {
    var parts := Split(text, '\\');
    if |parts| < 2 then None
    else
      var moduleName := parts[0] + "_" + parts[1];
      match st.GetModulePath(moduleName)
      case None => None
      case Some(modPath) =>
        Some(FullItems(ReplaceChar(moduleName, '_', '\\'), modPath, phpFiles(modPath),
                       JoinWith(parts[..|parts| - 1], '\\'), range))
  }

  /**
   * There are full candidates exactly when the text has a `\` and its
   * first two segments, joined by `_`, name a registered module.
   */
  lemma FullCompletionNone(st: Store.State, text: string, range: Range, phpFiles: Path -> seq<Path>)
    ensures var parts := Split(text, '\\');
      FullCompletion(st, text, range, phpFiles).None? <==>
        CountChar(text, '\\') == 0 || (|parts| >= 2 && parts[0] + "_" + parts[1] !in st.modulePaths)
  {
    SplitCount(text, '\\');
  }

  /**
   * Every full candidate starts with the text without its last segment
   * and is a class of the module the first two segments name.
   */
  lemma FullCompletionTyped(st: Store.State, text: string, range: Range, phpFiles: Path -> seq<Path>)
    requires FullCompletion(st, text, range, phpFiles).Some?
    ensures var parts := Split(text, '\\');
      forall it :: it in FullCompletion(st, text, range, phpFiles).value ==>
        StartsWith(it.name, JoinWith(parts[..|parts| - 1], '\\'))
        && ReplaceChar(parts[0] + "_" + parts[1], '_', '\\') + "\\" <= it.name
        && !EndsWith(it.name, RegistrationSuffix)
  {
    var parts := Split(text, '\\');
    var moduleName := parts[0] + "_" + parts[1];
    var modPath := st.modulePaths[moduleName];
    FullItemsMembers(ReplaceChar(moduleName, '_', '\\'), modPath, phpFiles(modPath),
                     JoinWith(parts[..|parts| - 1], '\\'), range);
  }

  /** `completion_for_classes` as a value. */
  function ClassCompletion(st: Store.State, text: string, range: Range,
                           phpFiles: Path -> seq<Path>): (r: Option<seq<CompletionItem>>)
    reads st
  {
    var t := TrimStart(text, '\\');
    var n := CountChar(t, '\\');
    if |t| == 0 || (PartOfClassName(t) && n == 0) then Some(PrefixItems(st, range))
    else if n == 1 then Some(PrefixItems(st, range) + FullCompletion(st, t, range, phpFiles).GetOr([]))
    else if n >= 2 then FullCompletion(st, t, range, phpFiles)
    else None
  }

  /**
   * Leading `\` are ignored. Without a `\` only the prefixes are offered,
   * and only for class-name text; with one `\` the prefixes come first;
   * with two or more only full candidates are offered.
   */
  lemma ClassCompletionCases(st: Store.State, text: string, range: Range, phpFiles: Path -> seq<Path>)
    ensures var t := TrimStart(text, '\\');
      var r := ClassCompletion(st, text, range, phpFiles);
      var n := CountChar(t, '\\');
      (r.None? <==> (n == 0 && |t| > 0 && !PartOfClassName(t))
                    || (n >= 2 && FullCompletion(st, t, range, phpFiles).None?))
      && (n == 0 && r.Some? ==> r.value == PrefixItems(st, range))
      && (n == 1 ==> r.Some? && PrefixItems(st, range) <= r.value)
      && (n >= 2 ==> r == FullCompletion(st, t, range, phpFiles))
  {
    var t := TrimStart(text, '\\');
    var n := CountChar(t, '\\');
    var prefixes := PrefixItems(st, range);
    var full := FullCompletion(st, t, range, phpFiles);
    var r := ClassCompletion(st, text, range, phpFiles);
    if |t| == 0 {
      CountCharZero(t, '\\');
    }
    if |t| == 0 || (PartOfClassName(t) && n == 0) {
      assert r == Some(prefixes);
    } else if n == 1 {
      assert r == Some(prefixes + full.GetOr([]));
    } else if n >= 2 {
      assert r == full;
    } else {
      assert r == None;
    }
  }

  /** Every class suggestion replaces the range of the text at the cursor. */
  lemma ClassCompletionEdits(st: Store.State, text: string, range: Range, phpFiles: Path -> seq<Path>)
    requires ClassCompletion(st, text, range, phpFiles).Some?
    ensures forall it :: it in ClassCompletion(st, text, range, phpFiles).value ==>
      it.kind == ClassKind && it.edit == Some(range)
  {
    var t := TrimStart(text, '\\');
    var prefixes := PrefixItems(st, range);
    var full := FullCompletion(st, t, range, phpFiles);
    PrefixItemsEdits(st, range);
    FullCompletionEdits(st, t, range, phpFiles);
    var r := ClassCompletion(st, text, range, phpFiles).value;
    assert r == prefixes || r == prefixes + full.GetOr([]) || (full.Some? && r == full.value);
  }

  lemma PrefixItemsEdits(st: Store.State, range: Range)
    ensures forall it :: it in PrefixItems(st, range) ==> it.kind == ClassKind && it.edit == Some(range)
  {
    var r := PrefixItems(st, range);
    forall it | it in r
      ensures it.kind == ClassKind && it.edit == Some(range)
    {
      var i :| 0 <= i < |r| && r[i] == it;
    }
  }

  lemma FullCompletionEdits(st: Store.State, t: string, range: Range, phpFiles: Path -> seq<Path>)
    ensures FullCompletion(st, t, range, phpFiles).Some? ==>
      forall it :: it in FullCompletion(st, t, range, phpFiles).value ==> it.kind == ClassKind && it.edit == Some(range)
  {
    if FullCompletion(st, t, range, phpFiles).Some? {
      var parts := Split(t, '\\');
      var moduleName := parts[0] + "_" + parts[1];
      var modPath := st.modulePaths[moduleName];
      FullItemsMembers(ReplaceChar(moduleName, '_', '\\'), modPath, phpFiles(modPath),
                       JoinWith(parts[..|parts| - 1], '\\'), range);
    }
  }

  /** `completion_for_classes_full` */
  method CompletionForClassesFull(st: Store.State, text: string, range: Range, phpFiles: Path -> seq<Path>)
    returns (r: Option<seq<CompletionItem>>)
    ensures r == FullCompletion(st, text, range, phpFiles)
  {
    var parts := Split(text, '\\');
    if |parts| < 2 {
      return None;
    }
    var moduleName := parts[0] + "_" + parts[1];
    var typedPrefix := JoinWith(parts[..|parts| - 1], '\\');
    var moduleClass := ReplaceChar(moduleName, '_', '\\');
    var modulePath := st.GetModulePath(moduleName);
    if modulePath.None? {
      return None;
    }
    var modPath := modulePath.value;
    var result := ClassItems(moduleClass, modPath, phpFiles(modPath), typedPrefix, range);
    r := Some(result);
  }

  /** The loop of `completion_for_classes_full` over the globbed files. */
  method ClassItems(moduleClass: string, modPath: Path, candidates: seq<Path>, typedPrefix: string, range: Range)
    returns (result: seq<CompletionItem>)
    ensures result == FullItems(moduleClass, modPath, candidates, typedPrefix, range)
  {
    result := [];
    var i := 0;
    while i < |candidates|
      invariant 0 <= i <= |candidates|
      invariant result == FullItems(moduleClass, modPath, candidates[..i], typedPrefix, range)
    {
      assert candidates[..i + 1][..i] == candidates[..i];
      var cls := ClassOfFile(moduleClass, modPath, candidates[i]);
      if !EndsWith(cls, RegistrationSuffix) && StartsWith(cls, typedPrefix) {
        result := result + [CompletionItem(cls, ClassKind, Some(range))];
      }
      i := i + 1;
    }
    assert candidates[..i] == candidates;
  }

  /** The class name one globbed file gives: its path under the module, `\`-joined, without ".php". */
  method ClassOfFile(moduleClass: string, modPath: Path, file: Path) returns (cls: string)
    ensures cls == ClassCandidate(moduleClass, modPath, file)
  {
    var relPath := JoinWith(RelativeTo(file, modPath), '\\');
    var classSuffix := TrimSuffix(relPath, PhpSuffix);
    cls := moduleClass + "\\" + classSuffix;
  }

  /** `completion_for_classes` */
  method CompletionForClasses(st: Store.State, text: string, range: Range, phpFiles: Path -> seq<Path>)
    returns (r: Option<seq<CompletionItem>>)
    ensures r == ClassCompletion(st, text, range, phpFiles)
  {
    var t := TrimStart(text, '\\');
    var n := CountChar(t, '\\');
    if |t| == 0 || (PartOfClassName(t) && n == 0) {
      r := Some(PrefixItems(st, range));
    } else if n == 1 {
      var result := PrefixItems(st, range);
      var classes := CompletionForClassesFull(st, t, range, phpFiles);
      if classes.Some? {
        result := result + classes.value;
      } else {
        assert result + [] == result;
      }
      r := Some(result);
    } else if n >= 2 {
      r := CompletionForClassesFull(st, t, range, phpFiles);
    } else {
      r := None;
    }
  }

  // ---------------------------------------------------------------------
  // Template completion
  // ---------------------------------------------------------------------

  /** One module item per module, in `get_modules` order. */
  function ModuleItems(st: Store.State): (r: seq<CompletionItem>)
    reads st
    ensures |r| == |st.GetModules()|
    ensures forall i :: 0 <= i < |r| ==> r[i] == CompletionItem(st.GetModules()[i], ModuleKind, None)
  {
    var mods := st.GetModules();
    seq(|mods|, i requires 0 <= i < |mods| => CompletionItem(mods[i], ModuleKind, None))
  }

  /** `<module>/view/<a>/templates` */
  function ViewPath(modPath: Path, a: string): (r: Path)
  {
    modPath + PartsComponents([ViewDir, a, TemplatesDir])
  }

  /** A template's label: its path below the templates directory, `/`-separated (`to_path_string`). */
  function TemplateLabel(file: Path, viewPath: Path): (r: string)
  {
    JoinWith(RelativeTo(file, viewPath), '/')
  }

  /** The labels of the files of one templates directory, in glob order. */
  function AreaLabels(viewPath: Path, files: seq<Path>): (r: seq<string>)
    ensures |r| == |files|
    ensures forall i :: 0 <= i < |r| ==> r[i] == TemplateLabel(files[i], viewPath)
  {
    seq(|files|, i requires 0 <= i < |files| => TemplateLabel(files[i], viewPath))
  }

  /** The labels of every area directory, in area order; `phtmlFiles(dir)` is what `<dir>/**/*.phtml` yields. */
  function TemplateLabels(modPath: Path, areas: seq<string>, phtmlFiles: Path -> seq<Path>): (r: seq<string>)
  {
    if |areas| == 0 then []
    else
      var viewPath := ViewPath(modPath, areas[|areas| - 1]);
      TemplateLabels(modPath, areas[..|areas| - 1], phtmlFiles) + AreaLabels(viewPath, phtmlFiles(viewPath))
  }

  /** A label is collected exactly when some area directory holds a file with that relative path. */
  lemma {:induction false} TemplateLabelsMembers(modPath: Path, areas: seq<string>, phtmlFiles: Path -> seq<Path>)
    ensures forall l :: l in TemplateLabels(modPath, areas, phtmlFiles) <==>
      exists i, f :: 0 <= i < |areas| && f in phtmlFiles(ViewPath(modPath, areas[i]))
                     && l == TemplateLabel(f, ViewPath(modPath, areas[i]))
    decreases |areas|
  {
    if |areas| > 0 {
      var init := areas[..|areas| - 1];
      var last := |areas| - 1;
      TemplateLabelsMembers(modPath, init, phtmlFiles);
      var viewPath := ViewPath(modPath, areas[last]);
      var labels := AreaLabels(viewPath, phtmlFiles(viewPath));
      forall l | l in TemplateLabels(modPath, areas, phtmlFiles)
        ensures exists i, f :: 0 <= i < |areas| && f in phtmlFiles(ViewPath(modPath, areas[i]))
                               && l == TemplateLabel(f, ViewPath(modPath, areas[i]))
      {
        if l in TemplateLabels(modPath, init, phtmlFiles) {
          var i, f :| 0 <= i < |init| && f in phtmlFiles(ViewPath(modPath, init[i]))
                      && l == TemplateLabel(f, ViewPath(modPath, init[i]));
          assert init[i] == areas[i];
        } else {
          assert l in labels;
          var k :| 0 <= k < |labels| && labels[k] == l;
          assert phtmlFiles(viewPath)[k] in phtmlFiles(ViewPath(modPath, areas[last]));
        }
      }
      forall l, i, f | 0 <= i < |areas| && f in phtmlFiles(ViewPath(modPath, areas[i]))
                       && l == TemplateLabel(f, ViewPath(modPath, areas[i]))
        ensures l in TemplateLabels(modPath, areas, phtmlFiles)
      {
        if i < last {
          assert init[i] == areas[i];
        } else {
          var k :| 0 <= k < |phtmlFiles(viewPath)| && phtmlFiles(viewPath)[k] == f;
          assert labels[k] == l;
        }
      }
    }
  }

  /** The labels of a list of items, in order. */
  function Names(items: seq<CompletionItem>): (r: seq<string>)
    ensures |r| == |items|
    ensures forall i :: 0 <= i < |r| ==> r[i] == items[i].name
  {
    seq(|items|, i requires 0 <= i < |items| => items[i].name)
  }

  /** One file item per label. */
  function FileItems(labels: seq<string>): (r: seq<CompletionItem>)
    ensures |r| == |labels|
    ensures forall i :: 0 <= i < |r| ==> r[i] == CompletionItem(labels[i], FileKind, None)
  {
    seq(|labels|, i requires 0 <= i < |labels| => CompletionItem(labels[i], FileKind, None))
  }

  /** `completion_for_template` as a value. */
  function TemplateCompletion(st: Store.State, text: string, area: Area,
                              phtmlFiles: Path -> seq<Path>): (r: Option<seq<CompletionItem>>)
    reads st
  {
    if |text| == 0 || PartOfModuleName(text) then Some(ModuleItems(st))
    else if Contains(text, ModuleSeparator) then
      match st.GetModulePath(Xml.BeforeFirst(text, ModuleSeparator))
      case None => None
      case Some(modPath) => Some(FileItems(SortedDistinct(TemplateLabels(modPath, PathCandidates(area), phtmlFiles))))
    else None
  }

  /**
   * Module-name text lists the modules; `<module>::` text lists the
   * module's templates sorted by label without duplicates, a label being
   * offered exactly when one of the area's templates directories holds
   * it; anything else, or an unknown module, gives nothing.
   */
  lemma TemplateCompletionCases(st: Store.State, text: string, area: Area, phtmlFiles: Path -> seq<Path>)
    ensures var r := TemplateCompletion(st, text, area, phtmlFiles);
      var moduleText := |text| == 0 || PartOfModuleName(text);
      var modName := Xml.BeforeFirst(text, ModuleSeparator);
      (moduleText ==> r == Some(ModuleItems(st)))
      && (r.None? <==> !moduleText && (!Contains(text, ModuleSeparator) || modName !in st.modulePaths))
      && (r.Some? && !moduleText ==>
            var cands := PathCandidates(area);
            var modPath := st.modulePaths[modName];
            StrictlySorted(Names(r.value))
            && (forall it :: it in r.value ==> it.kind == FileKind && it.edit.None?)
            && (forall l :: l in Names(r.value) <==>
                  exists i, f :: 0 <= i < |cands| && f in phtmlFiles(ViewPath(modPath, cands[i]))
                                 && l == TemplateLabel(f, ViewPath(modPath, cands[i]))))
  {
    var r := TemplateCompletion(st, text, area, phtmlFiles);
    if r.Some? && !(|text| == 0 || PartOfModuleName(text)) {
      var modPath := st.modulePaths[Xml.BeforeFirst(text, ModuleSeparator)];
      var labels := SortedDistinct(TemplateLabels(modPath, PathCandidates(area), phtmlFiles));
      TemplateLabelsMembers(modPath, PathCandidates(area), phtmlFiles);
      assert Names(r.value) == labels;
    }
  }

  /** `completion_for_template` */
  method CompletionForTemplate(st: Store.State, text: string, area: Area, phtmlFiles: Path -> seq<Path>)
    returns (r: Option<seq<CompletionItem>>)
    ensures r == TemplateCompletion(st, text, area, phtmlFiles)
  {
    if |text| == 0 || PartOfModuleName(text) {
      return Some(ModuleItems(st));
    }
    if !Contains(text, ModuleSeparator) {
      return None;
    }
    var moduleName := Xml.BeforeFirst(text, ModuleSeparator);
    var path := st.GetModulePath(moduleName);
    if path.None? {
      return None;
    }
    var labels := CollectTemplates(path.value, PathCandidates(area), phtmlFiles);
    r := Some(FileItems(SortedDistinct(labels)));
  }

  /** The loop of `completion_for_template` that extends the list with each area's templates. */
  method CollectTemplates(modPath: Path, areas: seq<string>, phtmlFiles: Path -> seq<Path>)
    returns (labels: seq<string>)
    ensures labels == TemplateLabels(modPath, areas, phtmlFiles)
  {
    labels := [];
    var i := 0;
    while i < |areas|
      invariant 0 <= i <= |areas|
      invariant labels == TemplateLabels(modPath, areas[..i], phtmlFiles)
    {
      assert areas[..i + 1][..i] == areas[..i];
      var viewPath := ViewPath(modPath, areas[i]);
      labels := labels + AreaLabels(viewPath, phtmlFiles(viewPath));
      i := i + 1;
    }
    assert areas[..i] == areas;
  }

  // ---------------------------------------------------------------------
  // Dispatch
  // ---------------------------------------------------------------------

  /**
   * `get_completion_from_params` as a value: `cursor` is what
   * `get_current_position_path` finds in the buffer at the cursor, and
   * `eventItems` the fixed list of event names.
   */
  function Completions(st: Store.State, path: Path, cursor: Option<CursorNode>, eventItems: seq<CompletionItem>,
                       phpFiles: Path -> seq<Path>, phtmlFiles: Path -> seq<Path>): (r: Option<seq<CompletionItem>>)
    reads st
  {
    if st.GetFile(path).None? || !IsXml(path) || cursor.None? then None
    else
      var x := cursor.value;
      if TemplateAttr in x.matches then TemplateCompletion(st, x.text, GetArea(path), phtmlFiles)
      else if EventName in x.matches && EndsWithFile(path, EventsXml) then Some(eventItems)
      else if PreferenceFor in x.matches && EndsWithFile(path, DiXml) then ClassCompletion(st, x.text, x.range, phpFiles)
      else if PreferenceType in x.matches && EndsWithFile(path, DiXml) then ClassCompletion(st, x.text, x.range, phpFiles)
      else if ClassAttr in x.matches || InstanceAttr in x.matches then ClassCompletion(st, x.text, x.range, phpFiles)
      else if ArgumentNode in x.matches then ClassCompletion(st, x.text, x.range, phpFiles)
      else None
  }

  /**
   * Suggestions need an open buffer of an XML file; a template
   * attribute always gets template completion, event names are offered
   * only in `events.xml`, and a node matching none of the paths gets
   * nothing.
   */
  lemma CompletionsGuards(st: Store.State, path: Path, cursor: Option<CursorNode>, eventItems: seq<CompletionItem>,
                          phpFiles: Path -> seq<Path>, phtmlFiles: Path -> seq<Path>)
    ensures var r := Completions(st, path, cursor, eventItems, phpFiles, phtmlFiles);
      (r.Some? ==> path in st.buffers && IsXml(path) && cursor.Some? && cursor.value.matches != {})
      && (path in st.buffers && IsXml(path) && cursor.Some? && TemplateAttr in cursor.value.matches ==>
            r == TemplateCompletion(st, cursor.value.text, GetArea(path), phtmlFiles))
      && (cursor.Some? && cursor.value.matches == {EventName} && !EndsWithFile(path, EventsXml) ==> r.None?)
  {
    if cursor.Some? && cursor.value.matches == {EventName} {
      assert TemplateAttr !in cursor.value.matches && PreferenceFor !in cursor.value.matches;
      assert PreferenceType !in cursor.value.matches && ClassAttr !in cursor.value.matches;
      assert InstanceAttr !in cursor.value.matches && ArgumentNode !in cursor.value.matches;
    }
  }

  /** `get_completion_from_params` */
  method GetCompletionFromParams(st: Store.State, path: Path, cursor: Option<CursorNode>,
                                 eventItems: seq<CompletionItem>,
                                 phpFiles: Path -> seq<Path>, phtmlFiles: Path -> seq<Path>)
    returns (r: Option<seq<CompletionItem>>)
    ensures r == Completions(st, path, cursor, eventItems, phpFiles, phtmlFiles)
  {
    var content := st.GetFile(path);
    if content.None? || !IsXml(path) || cursor.None? {
      return None;
    }
    var x := cursor.value;
    if TemplateAttr in x.matches {
      r := CompletionForTemplate(st, x.text, GetArea(path), phtmlFiles);
    } else if EventName in x.matches && EndsWithFile(path, EventsXml) {
      r := Some(eventItems);
    } else if PreferenceFor in x.matches && EndsWithFile(path, DiXml) {
      r := CompletionForClasses(st, x.text, x.range, phpFiles);
    } else if PreferenceType in x.matches && EndsWithFile(path, DiXml) {
      r := CompletionForClasses(st, x.text, x.range, phpFiles);
    } else if ClassAttr in x.matches || InstanceAttr in x.matches {
      r := CompletionForClasses(st, x.text, x.range, phpFiles);
    } else if ArgumentNode in x.matches {
      r := CompletionForClasses(st, x.text, x.range, phpFiles);
    } else {
      r := None;
    }
  }
}

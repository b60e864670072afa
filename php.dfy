/**
 * PHP facts: the module name a `registration.php` registers, the map
 * from module names to their directories, and the class, methods and
 * constants of a PHP class file.
 */
module Php {
  import opened Options
  import opened Text
  import opened Paths
  import opened Ts

  /** What a `ComponentRegistrar::register` call registers. */
  datatype M2Module = Theme(name: string) | Module(name: string) | Library(name: string)

  // ---------------------------------------------------------------------
  // register_param_to_module
  // ---------------------------------------------------------------------

  /**
   * `register_param_to_module`: `area/Vendor/theme` (two `/`) is a theme,
   * `vendor/package` (one `/`) a library whose name is Pascal-cased,
   * `Vendor_Module` (no `/`, one `_`) a module. `pascal` stands for
   * `to_case(Case::Pascal)`.
   */
  function RegisterParamToModule(param: string, pascal: string -> string): Option<M2Module>
  {
    if CountChar(param, '/') == 2 then Some(Theme(param))
    else if CountChar(param, '/') == 1 then
      CountCharZero(param, '/');
      var slash := IndexOf(param, '/');
      Some(Library(LibraryName(param[..slash], param[slash + 1..], pascal)))
    else if CountChar(param, '_') == 1 then
      SplitCount(param, '_');
      var parts := Split(param, '_');
      Some(Module(parts[0] + "\\" + parts[1]))
    else None
  }

  /** `Vendor\Package`, or `Vendor\Head\Tail` when the package is `head-tail`. */
  function LibraryName(vendor: string, package: string, pascal: string -> string): string
  {
    if '-' in package then
      var dash := IndexOf(package, '-');
      pascal(vendor) + "\\" + pascal(package[..dash]) + "\\" + pascal(package[dash + 1..])
    else
      pascal(vendor) + "\\" + pascal(package)
  }

  /**
   * The kind of a registration depends only on how many `/` and `_` its
   * name holds; a theme keeps the name as written.
   */
  lemma RegisterParamKinds(param: string, pascal: string -> string)
    ensures var r := RegisterParamToModule(param, pascal);
      ((r.Some? && r.value.Theme?) <==> CountChar(param, '/') == 2)
      && (r.Some? && r.value.Theme? ==> r.value.name == param)
      && ((r.Some? && r.value.Library?) <==> CountChar(param, '/') == 1)
      && ((r.Some? && r.value.Module?) <==>
            CountChar(param, '/') != 1 && CountChar(param, '/') != 2 && CountChar(param, '_') == 1)
      && (r.None? <==>
            CountChar(param, '/') != 1 && CountChar(param, '/') != 2 && CountChar(param, '_') != 1)
  {
  }

  lemma ReplaceJoined(a: string, b: string)
    requires '_' !in a && '_' !in b
    ensures ReplaceChar(a + "_" + b, '_', '\\') == a + "\\" + b
  {
    var l := ReplaceChar(a + "_" + b, '_', '\\');
    var r := a + "\\" + b;
    forall i | 0 <= i < |l| ensures l[i] == r[i] {
      if i < |a| {
        assert a[i] in a;
      } else if i > |a| {
        assert b[i - |a| - 1] in b;
      }
    }
  }

  /** A module registration `Vendor_Module` names the class prefix `Vendor\Module`. */
  lemma ModuleNameReplacesUnderscore(param: string, pascal: string -> string)
    requires CountChar(param, '/') != 1 && CountChar(param, '/') != 2 && CountChar(param, '_') == 1
    ensures RegisterParamToModule(param, pascal) == Some(Module(ReplaceChar(param, '_', '\\')))
  {
    SplitCount(param, '_');
    var parts := Split(param, '_');
    assert parts[0] in parts && parts[1] in parts;
    assert JoinWith(parts[1..], '_') == parts[1];
    assert param == parts[0] + "_" + parts[1];
    ReplaceJoined(parts[0], parts[1]);
  }

  /** A name with one `/` registers a library named after its two halves. */
  lemma LibraryParam(vendor: string, package: string, pascal: string -> string)
    requires '/' !in vendor && '/' !in package
    ensures RegisterParamToModule(vendor + "/" + package, pascal) == Some(Library(LibraryName(vendor, package, pascal)))
  {
    var param := vendor + "/" + package;
    assert param == vendor + ("/" + package);
    IndexOfConcat(vendor, "/" + package, '/');
    CountCharConcat(vendor, "/" + package, '/');
    CountCharConcat("/", package, '/');
    CountCharZero(vendor, '/');
    CountCharZero(package, '/');
    assert param[..|vendor|] == vendor;
    assert param[|vendor| + 1..] == package;
  }

  /**
   * A library registration `vendor/pkg-name` names `Vendor\Pkg\Name`;
   * without a `-` it names `Vendor\Package`. When Pascal-casing never
   * produces a `\`, splitting the name at `\` gives the segments back.
   */
  lemma LibrarySegments(vendor: string, package: string, pascal: string -> string)
    requires forall s :: '\\' !in pascal(s)
    ensures '-' in package ==>
      var dash := IndexOf(package, '-');
      Split(LibraryName(vendor, package, pascal), '\\') ==
        [pascal(vendor), pascal(package[..dash]), pascal(package[dash + 1..])]
    ensures '-' !in package ==>
      Split(LibraryName(vendor, package, pascal), '\\') == [pascal(vendor), pascal(package)]
  {
    if '-' in package {
      var dash := IndexOf(package, '-');
      SplitThree(pascal(vendor), pascal(package[..dash]), pascal(package[dash + 1..]));
    } else {
      SplitTwo(pascal(vendor), pascal(package));
    }
  }

  lemma SplitTwo(a: string, b: string)
    requires '\\' !in a && '\\' !in b
    ensures Split(a + "\\" + b, '\\') == [a, b]
  {
    var segs := [a, b];
    assert JoinWith(segs[1..], '\\') == b;
    assert JoinWith(segs, '\\') == a + "\\" + b;
    SplitJoin(segs, '\\');
  }

  lemma SplitThree(a: string, b: string, c: string)
    requires '\\' !in a && '\\' !in b && '\\' !in c
    ensures Split(a + "\\" + b + "\\" + c, '\\') == [a, b, c]
  {
    var segs := [a, b, c];
    assert segs[1..][1..] == [c];
    assert JoinWith(segs[1..], '\\') == b + "\\" + c;
    assert JoinWith(segs, '\\') == a + "\\" + (b + "\\" + c);
    assert a + "\\" + (b + "\\" + c) == a + "\\" + b + "\\" + c;
    SplitJoin(segs, '\\');
  }

  // ---------------------------------------------------------------------
  // get_modules_map
  // ---------------------------------------------------------------------

  /** A `register(...)` call: the registration file and the raw text of its name argument. */
  datatype Registration = Registration(file: Path, argument: string)

  /** The argument without its double, then single, quotes. */
  function Unquote(argument: string): (r: string)
    ensures |r| <= |argument|
    ensures |r| == 0 || (r[0] != '\'' && r[|r| - 1] != '\'')
    ensures r == Trim(Trim(argument, '"'), '\'')
  {
    Trim(Trim(argument, '"'), '\'')
  }

  /** A single-quoted name whose own ends are no quote loses exactly its quotes. */
  lemma UnquoteQuoted(name: string)
    requires |name| == 0 || (name[0] != '\'' && name[0] != '"' && name[|name| - 1] != '\'' && name[|name| - 1] != '"')
    ensures Unquote("'" + name + "'") == name
  {
    var quoted := "'" + name + "'";
    TrimUntouched(quoted, '"');
    assert quoted == ['\''] + name + ['\''];
    TrimEnclosed(name, '\'');
  }

  /** The name a registration adds to the module map: modules and libraries, not themes. */
  function RegisteredName(reg: Registration, pascal: string -> string): Option<string>
  {
    var m := RegisterParamToModule(Unquote(reg.argument), pascal);
    if m.Some? && !m.value.Theme? then Some(m.value.name) else None
  }

  /** What one registration contributes: the name it registers, if any, and its directory. */
  datatype Entry = Entry(name: Option<string>, dir: Path)

  function Entries(regs: seq<Registration>, pascal: string -> string): (es: seq<Entry>)
    ensures |es| == |regs|
  {
    if |regs| == 0 then []
    else
      var last := regs[|regs| - 1];
      Entries(regs[..|regs| - 1], pascal) + [Entry(RegisteredName(last, pascal), Pop(last.file))]
  }

  /** The map after inserting the entries in order; entries without a name are skipped. */
  function InsertAll(es: seq<Entry>): (m: map<string, Path>)
  {
    if |es| == 0 then map[]
    else
      var before := InsertAll(es[..|es| - 1]);
      var last := es[|es| - 1];
      if last.name.Some? then before[last.name.value := last.dir] else before
  }

  /** The module map built from a project's registrations. */
  function ModulesMap(regs: seq<Registration>, pascal: string -> string): (m: map<string, Path>)
  {
    InsertAll(Entries(regs, pascal))
  }

  /**
   * The insert loop of `get_modules_map`: each registered module or
   * library maps to the directory of its registration file; themes are
   * skipped.
   */
  method GetModulesMap(regs: seq<Registration>, pascal: string -> string) returns (m: map<string, Path>)
    ensures m == ModulesMap(regs, pascal)
  {
    m := map[];
    var i := 0;
    while i < |regs|
      invariant 0 <= i <= |regs|
      invariant m == ModulesMap(regs[..i], pascal)
    {
      ModulesMapStep(regs, pascal, i);
      var name := RegisteredName(regs[i], pascal);
      if name.Some? {
        m := m[name.value := Pop(regs[i].file)];
      }
      i := i + 1;
    }
    assert regs[..i] == regs;
  }

  lemma ModulesMapStep(regs: seq<Registration>, pascal: string -> string, i: nat)
    requires i < |regs|
    ensures var name := RegisteredName(regs[i], pascal);
      ModulesMap(regs[..i + 1], pascal) ==
        if name.Some? then ModulesMap(regs[..i], pascal)[name.value := Pop(regs[i].file)]
        else ModulesMap(regs[..i], pascal)
  {
    assert regs[..i + 1][..i] == regs[..i];
  }

  /**
   * Every named entry is in the map with the directory of its LAST
   * entry: a later registration of the same name overwrites an earlier.
   */
  lemma {:induction false} InsertAllLastWins(es: seq<Entry>, name: string, i: nat)
    requires i < |es| && es[i].name == Some(name)
    requires forall j :: i < j < |es| ==> es[j].name != Some(name)
    ensures name in InsertAll(es) && InsertAll(es)[name] == es[i].dir
    decreases |es|
  {
    var n := |es| - 1;
    if i < n {
      var prefix := es[..n];
      assert prefix[i] == es[i];
      forall j | i < j < |prefix| ensures prefix[j].name != Some(name) {
        assert prefix[j] == es[j];
      }
      InsertAllLastWins(prefix, name, i);
    }
  }

  /** A name no entry carries is not in the map. */
  lemma {:induction false} InsertAllOnlyNamed(es: seq<Entry>, name: string)
    requires forall j :: 0 <= j < |es| ==> es[j].name != Some(name)
    ensures name !in InsertAll(es)
    decreases |es|
  {
    if |es| > 0 {
      var prefix := es[..|es| - 1];
      forall j | 0 <= j < |prefix| ensures prefix[j].name != Some(name) {
        assert prefix[j] == es[j];
      }
      InsertAllOnlyNamed(prefix, name);
    }
  }

  /** The entries of a project, one per registration, in order. */
  lemma {:induction false} EntriesAt(regs: seq<Registration>, pascal: string -> string, i: nat)
    requires i < |regs|
    ensures Entries(regs, pascal)[i] == Entry(RegisteredName(regs[i], pascal), Pop(regs[i].file))
    decreases |regs|
  {
    if i < |regs| - 1 {
      var prefix := regs[..|regs| - 1];
      assert prefix[i] == regs[i];
      EntriesAt(prefix, pascal, i);
    }
  }

  /**
   * `get_modules_map` maps every registered module or library to the
   * directory of its last registration file.
   */
  lemma ModulesMapLastRegistration(regs: seq<Registration>, pascal: string -> string, name: string, i: nat)
    requires i < |regs| && RegisteredName(regs[i], pascal) == Some(name)
    requires forall j :: i < j < |regs| ==> RegisteredName(regs[j], pascal) != Some(name)
    ensures name in ModulesMap(regs, pascal) && ModulesMap(regs, pascal)[name] == Pop(regs[i].file)
  {
    var es := Entries(regs, pascal);
    EntriesAt(regs, pascal, i);
    forall j | i < j < |es| ensures es[j].name != Some(name) {
      EntriesAt(regs, pascal, j);
    }
    InsertAllLastWins(es, name, i);
  }

  /** A name no registration produces is not in the module map. */
  lemma ModulesMapOnlyRegistered(regs: seq<Registration>, pascal: string -> string, name: string)
    requires forall j :: 0 <= j < |regs| ==> RegisteredName(regs[j], pascal) != Some(name)
    ensures name !in ModulesMap(regs, pascal)
  {
    var es := Entries(regs, pascal);
    forall j | 0 <= j < |es| ensures es[j].name != Some(name) {
      EntriesAt(regs, pascal, j);
    }
    InsertAllOnlyNamed(es, name);
  }

  // ---------------------------------------------------------------------
  // parse_php_file
  // ---------------------------------------------------------------------

  /**
   * One query match of a PHP file: the pattern it matched (0 namespace,
   * 1 class, 2 interface, 3 public method, 4 constant) and the text and
   * span of the name node the code reads.
   */
  datatype PhpMatch = PhpMatch(pattern: nat, text: string, node: Ts.Node)

  datatype PhpMember = PhpMember(name: string, range: Range)

  /** `PHPClass`: fully qualified name, file, range of the class name, methods and constants. */
  datatype PhpClass = PhpClass(fqn: string, uri: Path, range: Range,
                               methods: map<string, PhpMember>, constants: map<string, PhpMember>)

  /** The last match whose pattern is in `patterns`. */
  function LastOf(matches: seq<PhpMatch>, patterns: set<nat>): (r: Option<PhpMatch>)
    ensures r.Some? ==> r.value in matches && r.value.pattern in patterns
    ensures r.None? <==> forall j :: 0 <= j < |matches| ==> matches[j].pattern !in patterns
    ensures r.Some? ==>
      exists i :: 0 <= i < |matches| && matches[i] == r.value
                  && forall j :: i < j < |matches| ==> matches[j].pattern !in patterns
  {
    if |matches| == 0 then None
    else if matches[|matches| - 1].pattern in patterns then Some(matches[|matches| - 1])
    else
      var prefix := matches[..|matches| - 1];
      var r := LastOf(prefix, patterns);
      assert forall j :: 0 <= j < |matches| - 1 ==> prefix[j] == matches[j];
      if r.Some? then
        var i :| 0 <= i < |prefix| && prefix[i] == r.value
                 && forall j :: i < j < |prefix| ==> prefix[j].pattern !in patterns;
        assert matches[i] == r.value && forall j :: i < j < |matches| ==> matches[j].pattern !in patterns;
        r
      else r
  }

  /** The named members of one pattern, keyed by name; empty names are skipped, later ones overwrite. */
  function Members(matches: seq<PhpMatch>, pattern: nat): (m: map<string, PhpMember>)
    ensures forall k :: k in m ==> k != "" && m[k].name == k
  {
    if |matches| == 0 then map[]
    else
      var before := Members(matches[..|matches| - 1], pattern);
      var last := matches[|matches| - 1];
      if last.pattern == pattern && last.text != "" then
        before[last.text := PhpMember(last.text, GetRangeFromNode(last.node))]
      else before
  }

  /** A name is a member exactly when some non-empty match of the pattern carries it. */
  lemma {:induction false} MembersKeys(matches: seq<PhpMatch>, pattern: nat, k: string)
    ensures k in Members(matches, pattern) <==>
      k != "" && exists j :: 0 <= j < |matches| && matches[j].pattern == pattern && matches[j].text == k
    decreases |matches|
  {
    if |matches| > 0 {
      var prefix := matches[..|matches| - 1];
      MembersKeys(prefix, pattern, k);
      if exists j :: 0 <= j < |prefix| && prefix[j].pattern == pattern && prefix[j].text == k {
        var j :| 0 <= j < |prefix| && prefix[j].pattern == pattern && prefix[j].text == k;
        assert matches[j] == prefix[j];
      }
      if exists j :: 0 <= j < |matches| && matches[j].pattern == pattern && matches[j].text == k {
        var j :| 0 <= j < |matches| && matches[j].pattern == pattern && matches[j].text == k;
        if j < |prefix| {
          assert prefix[j] == matches[j];
        }
      }
    }
  }

  /**
   * The last non-empty match of the pattern with a given name decides that
   * member: earlier matches with the same name are overwritten.
   */
  lemma {:induction false} MembersLastWins(matches: seq<PhpMatch>, pattern: nat, i: nat)
    requires i < |matches| && matches[i].pattern == pattern && matches[i].text != ""
    requires forall j :: i < j < |matches| ==> matches[j].pattern != pattern || matches[j].text != matches[i].text
    ensures matches[i].text in Members(matches, pattern)
    ensures Members(matches, pattern)[matches[i].text] == PhpMember(matches[i].text, GetRangeFromNode(matches[i].node))
    decreases |matches|
  {
    if i < |matches| - 1 {
      var prefix := matches[..|matches| - 1];
      assert prefix[i] == matches[i];
      forall j | i < j < |prefix| ensures prefix[j].pattern != pattern || prefix[j].text != prefix[i].text {
        assert prefix[j] == matches[j];
      }
      MembersLastWins(prefix, pattern, i);
    }
  }

  /**
   * What `parse_php_file` returns: None without a namespace or without a
   * class (or interface), or when both names are empty; otherwise the
   * class `namespace\Class`, located at the last class name found.
   */
  function ParsedClass(file: Path, matches: seq<PhpMatch>): (r: Option<PhpClass>)
    ensures r.None? <==>
      LastOf(matches, {0}).None? || LastOf(matches, {1, 2}).None?
      || (LastOf(matches, {0}).value.text == "" && LastOf(matches, {1, 2}).value.text == "")
    ensures r.Some? ==>
      r.value.fqn == LastOf(matches, {0}).value.text + "\\" + LastOf(matches, {1, 2}).value.text
      && r.value.uri == file
      && r.value.range == GetRangeFromNode(LastOf(matches, {1, 2}).value.node)
      && r.value.methods == Members(matches, 3) && r.value.constants == Members(matches, 4)
  {
    var ns := LastOf(matches, {0});
    var cls := LastOf(matches, {1, 2});
    if ns.None? || cls.None? then None
    else
      var fqn := ns.value.text + "\\" + cls.value.text;
      if fqn == "\\" then None
      else Some(PhpClass(fqn, file, GetRangeFromNode(cls.value.node), Members(matches, 3), Members(matches, 4)))
  }

  /** One more match: it becomes the last of its patterns, or the last stays. */
  lemma LastOfNext(matches: seq<PhpMatch>, i: nat, patterns: set<nat>)
    requires i < |matches|
    ensures LastOf(matches[..i + 1], patterns) ==
      if matches[i].pattern in patterns then Some(matches[i]) else LastOf(matches[..i], patterns)
  {
    assert matches[..i + 1][..i] == matches[..i];
  }

  /** One more match adds or overwrites its member when it is of the pattern and named. */
  lemma MembersNext(matches: seq<PhpMatch>, i: nat, pattern: nat)
    requires i < |matches|
    ensures var m := matches[i];
      Members(matches[..i + 1], pattern) ==
        if m.pattern == pattern && m.text != "" then Members(matches[..i], pattern)[m.text := PhpMember(m.text, GetRangeFromNode(m.node))]
        else Members(matches[..i], pattern)
  {
    assert matches[..i + 1][..i] == matches[..i];
  }

  /**
   * `parse_php_file`: one pass over the matches keeping the last
   * namespace and class node and collecting methods and constants.
   */
  method ParsePhpFile(file: Path, matches: seq<PhpMatch>) returns (r: Option<PhpClass>)
    ensures r == ParsedClass(file, matches)
  {
    var ns: Option<PhpMatch> := None;
    var cls: Option<PhpMatch> := None;
    var methods: map<string, PhpMember> := map[];
    var constants: map<string, PhpMember> := map[];
    var i := 0;
    while i < |matches|
      invariant 0 <= i <= |matches|
      invariant ns == LastOf(matches[..i], {0})
      invariant cls == LastOf(matches[..i], {1, 2})
      invariant methods == Members(matches[..i], 3)
      invariant constants == Members(matches[..i], 4)
    {
      var m := matches[i];
      LastOfNext(matches, i, {0});
      LastOfNext(matches, i, {1, 2});
      MembersNext(matches, i, 3);
      MembersNext(matches, i, 4);
      if m.pattern == 0 {
        ns := Some(m);
      }
      if m.pattern == 1 || m.pattern == 2 {
        cls := Some(m);
      }
      if m.pattern == 3 && m.text != "" {
        methods := methods[m.text := PhpMember(m.text, GetRangeFromNode(m.node))];
      }
      if m.pattern == 4 && m.text != "" {
        constants := constants[m.text := PhpMember(m.text, GetRangeFromNode(m.node))];
      }
      i := i + 1;
    }
    assert matches[..i] == matches;
    if ns.None? || cls.None? {
      return None;
    }
    var fqn := ns.value.text + "\\" + cls.value.text;
    if fqn == "\\" {
      return None;
    }
    return Some(PhpClass(fqn, file, GetRangeFromNode(cls.value.node), methods, constants));
  }
}

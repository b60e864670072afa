/**
 * Go-to-definition for PHP classes, methods and constants: the class is
 * split into a registered module and the remaining segments, those
 * segments become the path of a `.php` file under the module, and the
 * file's class (when it exists and parses) gives the target.
 */
module DefinitionPhp {
  import opened Options
  import opened Paths
  import opened Ts
  import opened M2
  import opened Locations
  import opened Php
  import Store

  const PhpExt: string := "php"

  /** The file a split class lives in: the module directory, the suffix segments, extension "php". */
  function ClassFile(modPath: Path, suffix: seq<string>): (r: Path)
  {
    SetExtension(modPath + PartsComponents(suffix), PhpExt)
  }

  /**
   * With plain segments, the file is the module directory, every
   * segment but the last as a directory, and the last with ".php".
   */
  lemma ClassFileShape(modPath: Path, suffix: seq<string>)
    requires |suffix| > 0
    requires forall i :: 0 <= i < |suffix| ==> IsComponent(suffix[i]) && '.' !in suffix[i]
    ensures ClassFile(modPath, suffix) == modPath + suffix[..|suffix| - 1] + [suffix[|suffix| - 1] + "." + PhpExt]
  {
    PartsComponentsOfNames(suffix);
    var p := modPath + suffix;
    var name := suffix[|suffix| - 1];
    assert p[|p| - 1] == name;
    assert FileStem(p) == Some(name);
    assert p[..|p| - 1] == modPath + suffix[..|suffix| - 1];
  }

  /**
   * `get_php_class_from_class_name` as a value: `sources` holds every
   * PHP file that exists, with the query matches its parse yields.
   */
  function PhpClassOf(modulePaths: map<string, Path>, className: string,
                      sources: map<Path, seq<PhpMatch>>): (r: Option<PhpClass>)
  {
    match Store.SplitClass(modulePaths, className)
    case None => None
    case Some((modPath, suffix)) =>
      var file := ClassFile(modPath, suffix);
      if file in sources then ParsedClass(file, sources[file]) else None
  }

  /**
   * A class is found only when its name splits into a registered module
   * and a suffix, the `.php` file of that suffix exists, and it parses;
   * the class found is the one in that file.
   */
  lemma PhpClassFound(modulePaths: map<string, Path>, className: string, sources: map<Path, seq<PhpMatch>>)
    ensures var r := PhpClassOf(modulePaths, className, sources);
      var split := Store.SplitClass(modulePaths, className);
      (split.None? ==> r.None?)
      && (split.Some? && ClassFile(split.value.0, split.value.1) !in sources ==> r.None?)
      && (r.Some? ==> split.Some? && r.value.uri == ClassFile(split.value.0, split.value.1)
                      && r.value.uri in sources && r == ParsedClass(r.value.uri, sources[r.value.uri]))
  {
  }

  /** `get_php_class_from_class_name` */
  method GetPhpClassFromClassName(st: Store.State, className: string, sources: map<Path, seq<PhpMatch>>)
    returns (r: Option<PhpClass>)
    ensures r == PhpClassOf(st.modulePaths, className, sources)
  {
    var modulePath := st.SplitClassToPathAndSuffix(className);
    match modulePath {
      case None =>
        r := None;
      case Some((modPath, suffix)) =>
        var filePath := Append(modPath, suffix);
        filePath := SetExtension(filePath, PhpExt);
        if filePath in sources {
          r := ParsePhpFile(filePath, sources[filePath]);
        } else {
          r := None;
        }
    }
  }

  /** `find_class`: the class's file and the range of its name. */
  method FindClass(st: Store.State, className: string, sources: map<Path, seq<PhpMatch>>)
    returns (r: Option<Location>)
    ensures var c := PhpClassOf(st.modulePaths, className, sources);
      (r.Some? <==> c.Some?) && (r.Some? ==> r.value == Location(c.value.uri, c.value.range))
  {
    var phpClass := GetPhpClassFromClassName(st, className, sources);
    if phpClass.None? {
      return None;
    }
    r := Some(Location(phpClass.value.uri, phpClass.value.range));
  }

  /** `find_method`: the method's range when the class declares it, the class's otherwise. */
  method FindMethod(st: Store.State, className: string, methodName: string, sources: map<Path, seq<PhpMatch>>)
    returns (r: Option<Location>)
    ensures var c := PhpClassOf(st.modulePaths, className, sources);
      (r.Some? <==> c.Some?)
      && (r.Some? ==> r.value.uri == c.value.uri)
      && (r.Some? && methodName in c.value.methods ==> r.value.range == c.value.methods[methodName].range)
      && (r.Some? && methodName !in c.value.methods ==> r.value.range == c.value.range)
  {
    var phpClass := GetPhpClassFromClassName(st, className, sources);
    if phpClass.None? {
      return None;
    }
    var c := phpClass.value;
    var range := if methodName in c.methods then c.methods[methodName].range else c.range;
    r := Some(Location(c.uri, range));
  }

  /** `find_const`: the constant's range when the class declares it, the class's otherwise. */
  method FindConst(st: Store.State, className: string, constant: string, sources: map<Path, seq<PhpMatch>>)
    returns (r: Option<Location>)
    ensures var c := PhpClassOf(st.modulePaths, className, sources);
      (r.Some? <==> c.Some?)
      && (r.Some? ==> r.value.uri == c.value.uri)
      && (r.Some? && constant in c.value.constants ==> r.value.range == c.value.constants[constant].range)
      && (r.Some? && constant !in c.value.constants ==> r.value.range == c.value.range)
  {
    var phpClass := GetPhpClassFromClassName(st, className, sources);
    if phpClass.None? {
      return None;
    }
    var c := phpClass.value;
    var range := if constant in c.constants then c.constants[constant].range else c.range;
    r := Some(Location(c.uri, range));
  }
}

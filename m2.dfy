/**
 * Magento-specific vocabulary: the items the server can navigate to,
 * the three areas (frontend, adminhtml, base) with their fallback
 * order, the path helpers of the `M2Path` extension trait and the
 * character tests for module and class names.
 */
module M2 {
  import opened Options
  import opened Text
  import opened Paths

  /** Something the cursor can stand on (`M2Item`). */
  datatype Item =
    | Component(name: string)
    | ModComponent(moduleName: string, file: string, modPath: Path)
    | RelComponent(text: string, dir: Path)
    | Class(cls: string)
    | Method(cls: string, methodName: string)
    | Const(cls: string, constant: string)
    | FrontPhtml(moduleName: string, template: string)
    | AdminPhtml(moduleName: string, template: string)
    | BasePhtml(moduleName: string, template: string)

  datatype Area = Frontend | Adminhtml | Base

  /** The `view/<area>` directories searched for an area, in order. */
  function PathCandidates(area: Area): (r: seq<string>)
    ensures |r| >= 2 && r[|r| - 1] == "base"
    ensures "frontend" in r <==> area != Adminhtml
    ensures "adminhtml" in r <==> area != Frontend
    ensures forall i, j :: 0 <= i < j < |r| ==> r[i] != r[j]
    ensures forall d :: d in r ==> d in {"frontend", "adminhtml", "base"}
    ensures |r| == if area == Base then 3 else 2
    ensures area == Base ==> r[0] == "frontend" && r[1] == "adminhtml"
  {
    match area
    case Frontend => ["frontend", "base"]
    case Adminhtml => ["adminhtml", "base"]
    case Base => ["frontend", "adminhtml", "base"]
  }

  /** The area an area falls back to. */
  function LowerArea(area: Area): (r: Option<Area>)
    ensures r.Some? <==> area != Base
    ensures r.Some? ==> r.value == Base
  {
    match area
    case Frontend => Some(Base)
    case Adminhtml => Some(Base)
    case Base => None
  }

  // ---------------------------------------------------------------------
  // append / append_ext / get_ext
  // ---------------------------------------------------------------------

  /** The components contributed by joining each part in turn. */
  function PartsComponents(parts: seq<string>): (r: Path)
    ensures WellFormed(r)
  {
    if |parts| == 0 then [] else PartsComponents(parts[..|parts| - 1]) + Components(parts[|parts| - 1])
  }

  /** `path.append(parts)`: join every part onto the path, in order. */
  method Append(p: Path, parts: seq<string>) returns (path: Path)
    ensures path == p + PartsComponents(parts)
  {
    path := p;
    var i := 0;
    while i < |parts|
      invariant 0 <= i <= |parts|
      invariant path == p + PartsComponents(parts[..i])
    {
      PartsComponentsStep(p, parts, i);
      path := Join(path, parts[i]);
      i := i + 1;
    }
    assert parts[..i] == parts;
  }

  lemma PartsComponentsStep(p: Path, parts: seq<string>, i: nat)
    requires i < |parts|
    ensures p + PartsComponents(parts[..i + 1]) == Join(p + PartsComponents(parts[..i]), parts[i])
  {
    assert parts[..i + 1][..i] == parts[..i];
    ConcatAssoc(p, PartsComponents(parts[..i]), Components(parts[i]));
  }

  /** Plain names are appended one component each, in the given order. */
  lemma {:induction false} PartsComponentsOfNames(parts: seq<string>)
    requires forall i :: 0 <= i < |parts| ==> IsComponent(parts[i])
    ensures PartsComponents(parts) == parts
  {
    if |parts| > 0 {
      PartsComponentsOfNames(parts[..|parts| - 1]);
      ComponentsOfName(parts[|parts| - 1]);
    }
  }

  /**
   * `path.append_ext(ext)`: whether or not the file name already has an
   * extension, ".<ext>" is added after the whole name.
   */
  function AppendExt(p: Path, ext: string): (r: Path)
    ensures |r| == |p|
    ensures |p| > 0 && ext != "" ==> r == p[..|p| - 1] + [p[|p| - 1] + "." + ext]
  {
    match Extension(p)
    case None => SetExtension(p, ext)
    case Some(current) =>
      StemAndExtension(p);
      var stem := FileStem(p).value;
      assert stem + "." + (current + "." + ext) == (stem + "." + current) + "." + ext;
      SetExtension(p, current + "." + ext)
  }

  /** The unit test of `append_ext`: "Cart" with "php" becomes "Cart.php". */
  lemma AppendExtCart()
    ensures AppendExt(["app", "code", "Magento", "Checkout", "Block", "Cart"], "php")
         == ["app", "code", "Magento", "Checkout", "Block", "Cart.php"]
  {
    var p := ["app", "code", "Magento", "Checkout", "Block", "Cart"];
    assert p[|p| - 1] + "." + "php" == "Cart.php";
    assert p[..|p| - 1] == ["app", "code", "Magento", "Checkout", "Block"];
  }

  /** `path.get_ext()`: the lower-cased extension, "" when there is none. */
  function GetExt(p: Path): (r: string)
    ensures Extension(p).None? ==> r == ""
    ensures Extension(p).Some? ==> r == ToLower(Extension(p).value)
    ensures forall i :: 0 <= i < |r| ==> !IsUppercase(r[i])
  {
    ToLower(Extension(p).GetOr(""))
  }

  // ---------------------------------------------------------------------
  // has_components
  // ---------------------------------------------------------------------

  predicate RunAt(path: Path, parts: seq<string>, i: nat) {
    i + |parts| <= |path| && path[i..i + |parts|] == parts
  }

  /** First index of a component, if present. */
  function FirstIndex(path: Path, c: string): (r: Option<nat>)
    ensures r.Some? ==> r.value < |path| && path[r.value] == c && c !in path[..r.value]
    ensures r.None? ==> c !in path
  {
    if c in path then Some(IndexOfComponent(path, c)) else None
  }

  function IndexOfComponent(path: Path, c: string): (i: nat)
    requires c in path
    ensures i < |path| && path[i] == c && c !in path[..i]
  {
    if path[0] == c then 0
    else
      var j := IndexOfComponent(path[1..], c);
      assert path[..j + 1] == [path[0]] + path[1..][..j];
      j + 1
  }

  /**
   * What `has_components` computes: the parts must follow, contiguously,
   * the FIRST component equal to `parts[0]`; later occurrences are never
   * tried.
   */
  predicate FirstRunMatches(path: Path, parts: seq<string>)
    requires |parts| > 0
  {
    match FirstIndex(path, parts[0])
    case None => false
    case Some(i) => RunAt(path, parts, i)
  }

  /**
   * `path.has_components(parts)` as written: a scan that starts matching
   * at the first component equal to `parts[0]` and gives up at the first
   * mismatch after that.
   */
  method HasComponents(path: Path, parts: seq<string>) returns (b: bool)
    requires |parts| > 0
    ensures b == FirstRunMatches(path, parts)
  {
    var start := false;
    var partId := 0;
    var k := 0;
    ghost var i := 0;
    while k < |path|
      invariant 0 <= k <= |path|
      invariant !start ==> partId == 0 && parts[0] !in path[..k]
      invariant start ==> FirstIndex(path, parts[0]) == Some(i)
      invariant start ==> 0 < partId < |parts| && k == i + partId && path[i..k] == parts[..partId]
    {
      var component := path[k];
      if start && parts[partId] != component {
        assert path[i + partId] != parts[partId];
        return false;
      }
      if parts[partId] == component {
        if !start {
          FirstIndexAt(path, parts[0], k);
          i := k;
        }
        assert path[i..k + 1] == path[i..k] + [path[k]];
        assert parts[..partId + 1] == parts[..partId] + [parts[partId]];
        start := true;
        partId := partId + 1;
      } else {
        assert path[..k + 1] == path[..k] + [path[k]];
      }
      if start && |parts| == partId {
        assert parts[..partId] == parts;
        return true;
      }
      k := k + 1;
    }
    assert path[..k] == path;
    return false;
  }

  /** The first occurrence of `c` is the index where it occurs with no earlier copy. */
  lemma FirstIndexAt(path: Path, c: string, k: nat)
    requires k < |path| && path[k] == c && c !in path[..k]
    ensures FirstIndex(path, c) == Some(k)
  {
  }

  /** The path of the unit tests of `has_components`. */
  const CartPath: Path := ["app", "code", "Magento", "Checkout", "Block", "Cart.php"]

  /** The unit tests of `has_components` on app/code/Magento/Checkout/Block/Cart.php. */
  lemma HasComponentsExamples()
    ensures FirstRunMatches(CartPath, ["Magento", "Checkout"])
    ensures FirstRunMatches(CartPath, ["app", "code"])
    ensures FirstRunMatches(CartPath, ["Block", "Cart.php"])
    ensures !FirstRunMatches(CartPath, ["Checkout", "Cart.php"])
  {
    CartMagentoCheckout();
    CartAppCode();
    CartBlockCart();
    CartCheckoutCart();
  }

  lemma CartMagentoCheckout()
    ensures FirstRunMatches(CartPath, ["Magento", "Checkout"])
  {
    FirstIndexAt(CartPath, "Magento", 2);
    assert CartPath[2..4] == [CartPath[2], CartPath[3]];
  }

  lemma CartAppCode()
    ensures FirstRunMatches(CartPath, ["app", "code"])
  {
    FirstIndexAt(CartPath, "app", 0);
    assert CartPath[0..2] == [CartPath[0], CartPath[1]];
  }

  lemma CartBlockCart()
    ensures FirstRunMatches(CartPath, ["Block", "Cart.php"])
  {
    FirstIndexAt(CartPath, "Block", 4);
    assert CartPath[4..6] == [CartPath[4], CartPath[5]];
  }

  lemma CartCheckoutCart()
    ensures !FirstRunMatches(CartPath, ["Checkout", "Cart.php"])
  {
    FirstIndexAt(CartPath, "Checkout", 3);
    assert CartPath[3..5] == [CartPath[3], CartPath[4]];
  }

  /**
   * The parts occur somewhere in the path as a contiguous run: what the
   * name `has_components` and its callers evidently intend.
   */
  predicate HasRun(path: Path, parts: seq<string>)
    requires |parts| > 0
  {
    HasRunFrom(path, parts, 0)
  }

  function HasRunFrom(path: Path, parts: seq<string>, i: nat): (b: bool)
    requires |parts| > 0
    ensures b <==> exists j :: i <= j && RunAt(path, parts, j)
    decreases |path| - i
  {
    if i + |parts| > |path| then false
    else RunAt(path, parts, i) || HasRunFrom(path, parts, i + 1)
  }

  /** Whatever the as-written scan accepts is a genuine contiguous run. */
  lemma FirstRunIsRun(path: Path, parts: seq<string>)
    requires |parts| > 0
    ensures FirstRunMatches(path, parts) ==> HasRun(path, parts)
  {
    if FirstRunMatches(path, parts) {
      assert RunAt(path, parts, FirstIndex(path, parts[0]).value);
    }
  }

  /**
   * The as-written scan misses a run that follows an earlier, unrelated
   * occurrence of the first part: a checkout under a directory named
   * "view" is not recognised as a frontend view path.
   */
  lemma FirstRunMissesLaterRun()
    ensures var path := ["srv", "view", "shop", "app", "code", "Acme", "Cart", "view", "frontend", "web"];
      HasRun(path, ["view", "frontend"]) && !FirstRunMatches(path, ["view", "frontend"])
  {
    var path := ["srv", "view", "shop", "app", "code", "Acme", "Cart", "view", "frontend", "web"];
    assert RunAt(path, ["view", "frontend"], 7);
    assert "view" !in path[..1];
    assert path[1..3] != ["view", "frontend"] by { assert path[1..3][1] == "shop"; }
  }

  /** The decision ladder of `get_area`, given the answers of its six pair tests. */
  function AreaFrom(viewBase: bool, designBase: bool, viewFront: bool, designFront: bool,
                    viewAdmin: bool, designAdmin: bool): (r: Area)
    ensures viewBase || designBase ==> r == Base
    ensures r == Frontend <==> !viewBase && !designBase && (viewFront || designFront)
    ensures r == Adminhtml <==> !viewBase && !designBase && !viewFront && !designFront && (viewAdmin || designAdmin)
  {
    if viewBase || designBase then Base
    else if viewFront || designFront then Frontend
    else if viewAdmin || designAdmin then Adminhtml
    else Base
  }

  /**
   * `path.get_area()` with the pair test corrected to "occurs as a
   * contiguous run": `view/base` or `design/base` first, then the
   * frontend pair, then the adminhtml pair, and base by default.
   */
  function GetArea(p: Path): (r: Area)
    ensures HasRun(p, ["view", "base"]) || HasRun(p, ["design", "base"]) ==> r == Base
    ensures r == Frontend <==>
      !HasRun(p, ["view", "base"]) && !HasRun(p, ["design", "base"])
      && (HasRun(p, ["view", "frontend"]) || HasRun(p, ["design", "frontend"]))
    ensures r == Adminhtml <==>
      !HasRun(p, ["view", "base"]) && !HasRun(p, ["design", "base"])
      && !HasRun(p, ["view", "frontend"]) && !HasRun(p, ["design", "frontend"])
      && (HasRun(p, ["view", "adminhtml"]) || HasRun(p, ["design", "adminhtml"]))
  {
    AreaFrom(HasRun(p, ["view", "base"]), HasRun(p, ["design", "base"]),
             HasRun(p, ["view", "frontend"]), HasRun(p, ["design", "frontend"]),
             HasRun(p, ["view", "adminhtml"]), HasRun(p, ["design", "adminhtml"]))
  }

  /** `path.get_area()` as written, each pair decided by the first-occurrence scan of `has_components`. */
  function GetAreaAsWritten(p: Path): (r: Area)
    ensures FirstRunMatches(p, ["view", "base"]) || FirstRunMatches(p, ["design", "base"]) ==> r == Base
    ensures r == Frontend <==>
      !FirstRunMatches(p, ["view", "base"]) && !FirstRunMatches(p, ["design", "base"])
      && (FirstRunMatches(p, ["view", "frontend"]) || FirstRunMatches(p, ["design", "frontend"]))
    ensures r == Adminhtml <==>
      !FirstRunMatches(p, ["view", "base"]) && !FirstRunMatches(p, ["design", "base"])
      && !FirstRunMatches(p, ["view", "frontend"]) && !FirstRunMatches(p, ["design", "frontend"])
      && (FirstRunMatches(p, ["view", "adminhtml"]) || FirstRunMatches(p, ["design", "adminhtml"]))
  {
    AreaFrom(FirstRunMatches(p, ["view", "base"]), FirstRunMatches(p, ["design", "base"]),
             FirstRunMatches(p, ["view", "frontend"]), FirstRunMatches(p, ["design", "frontend"]),
             FirstRunMatches(p, ["view", "adminhtml"]), FirstRunMatches(p, ["design", "adminhtml"]))
  }

  /** A component that occurs at most once in the path. */
  predicate AtMostOnce(path: Path, c: string) {
    forall i, j :: 0 <= i < |path| && 0 <= j < |path| && path[i] == c && path[j] == c ==> i == j
  }

  /** When the first part occurs at most once, the scan as written and the corrected test agree. */
  lemma FirstRunAgrees(path: Path, parts: seq<string>)
    requires |parts| > 0 && AtMostOnce(path, parts[0])
    ensures FirstRunMatches(path, parts) == HasRun(path, parts)
  {
    FirstRunIsRun(path, parts);
    if HasRun(path, parts) {
      var j :| 0 <= j && RunAt(path, parts, j);
      assert path[j] == path[j..j + |parts|][0] == parts[0];
      var i := FirstIndex(path, parts[0]).value;
      assert i == j;
    }
  }

  lemma FirstRunAgreesIf(path: Path, parts: seq<string>)
    requires |parts| > 0
    ensures AtMostOnce(path, parts[0]) ==> FirstRunMatches(path, parts) == HasRun(path, parts)
  {
    if AtMostOnce(path, parts[0]) {
      FirstRunAgrees(path, parts);
    }
  }

  /** A run found at any index makes the corrected test hold. */
  lemma RunGivesHasRun(path: Path, parts: seq<string>, j: nat)
    requires |parts| > 0 && RunAt(path, parts, j)
    ensures HasRun(path, parts)
  {
    assert HasRunFrom(path, parts, 0);
  }

  /**
   * On a path where `view` and `design` each occur at most once, as in
   * every path below a checkout whose own directories bear neither name,
   * the as-written `get_area` gives the corrected answer.
   */
  lemma GetAreaAgrees(p: Path)
    requires AtMostOnce(p, "view") && AtMostOnce(p, "design")
    ensures GetAreaAsWritten(p) == GetArea(p)
  {
    FirstRunAgrees(p, ["view", "base"]);
    FirstRunAgrees(p, ["design", "base"]);
    FirstRunAgrees(p, ["view", "frontend"]);
    FirstRunAgrees(p, ["design", "frontend"]);
    FirstRunAgrees(p, ["view", "adminhtml"]);
    FirstRunAgrees(p, ["design", "adminhtml"]);
  }

  /** A component file of a checkout that lies under a directory named `view`. */
  const ShopComponent: Path := ["srv", "view", "shop", "app", "code", "Acme", "Cart", "view", "frontend", "web", "x.js"]

  /** Without its second part anywhere in the path, a pair never occurs as a run. */
  lemma NoRunWithoutSecond(path: Path, parts: seq<string>)
    requires |parts| == 2 && parts[1] !in path
    ensures !HasRun(path, parts)
  {
    forall j: nat
      ensures !RunAt(path, parts, j)
    {
      if j + 2 <= |path| {
        assert path[j + 1] == path[j..j + 2][1];
      }
    }
  }

  /** Each as-written pair test fails on the shop path: the scan stops at `view/shop`. */
  lemma ShopComponentScans()
    ensures !FirstRunMatches(ShopComponent, ["view", "base"])
    ensures !FirstRunMatches(ShopComponent, ["view", "frontend"])
    ensures !FirstRunMatches(ShopComponent, ["view", "adminhtml"])
    ensures !FirstRunMatches(ShopComponent, ["design", "base"])
    ensures !FirstRunMatches(ShopComponent, ["design", "frontend"])
    ensures !FirstRunMatches(ShopComponent, ["design", "adminhtml"])
  {
    var p := ShopComponent;
    FirstIndexAt(p, "view", 1);
    assert p[1..3] == [p[1], p[2]];
    assert "design" !in p;
  }

  /** The corrected test finds the shop path's `view/frontend` run. */
  lemma ShopFrontendRun()
    ensures HasRun(ShopComponent, ["view", "frontend"])
  {
    var p := ShopComponent;
    assert p[7..9] == [p[7], p[8]];
    RunGivesHasRun(p, ["view", "frontend"], 7);
  }

  /**
   * The source's `get_area` answers base for the shop path, whose
   * `view/frontend` run the corrected test finds.
   */
  lemma GetAreaAsWrittenDiverges()
    ensures GetAreaAsWritten(ShopComponent) == Base
    ensures GetArea(ShopComponent) == Frontend
  {
    ShopComponentScans();
    ShopFrontendRun();
    assert "base" !in ShopComponent;
    NoRunWithoutSecond(ShopComponent, ["view", "base"]);
    NoRunWithoutSecond(ShopComponent, ["design", "base"]);
  }

  /** `path.is_frontend()` with the corrected run test. */
  function IsFrontend(p: Path): (b: bool)
    ensures b <==> (exists i :: RunAt(p, ["view", "frontend"], i)) || (exists i :: RunAt(p, ["app", "design", "frontend"], i))
  {
    HasRun(p, ["view", "frontend"]) || HasRun(p, ["app", "design", "frontend"])
  }

  /** `path.is_frontend()` as written. */
  function IsFrontendAsWritten(p: Path): (b: bool)
    ensures b ==> IsFrontend(p)
    ensures AtMostOnce(p, "view") && AtMostOnce(p, "app") ==> b == IsFrontend(p)
  {
    FirstRunIsRun(p, ["view", "frontend"]);
    FirstRunIsRun(p, ["app", "design", "frontend"]);
    FirstRunAgreesIf(p, ["view", "frontend"]);
    FirstRunAgreesIf(p, ["app", "design", "frontend"]);
    FirstRunMatches(p, ["view", "frontend"]) || FirstRunMatches(p, ["app", "design", "frontend"])
  }

  /** The scan as written finds no `app/design/frontend` on the shop path: `app` is followed by `code`. */
  lemma ShopAppScan()
    ensures !FirstRunMatches(ShopComponent, ["app", "design", "frontend"])
  {
    var p := ShopComponent;
    assert p[..3] == [p[0], p[1], p[2]];
    assert |p[1]| == 4 && |p[2]| == 4 && p[0][0] == 's';
    FirstIndexAt(p, "app", 3);
    assert p[3..6] == [p[3], p[4], p[5]];
  }

  /** The source's `is_frontend` misses the shop path's `view/frontend` too. */
  lemma IsFrontendAsWrittenDiverges()
    ensures !IsFrontendAsWritten(ShopComponent) && IsFrontend(ShopComponent)
  {
    ShopComponentScans();
    ShopAppScan();
    ShopFrontendRun();
  }

  /** `path.is_test()` with the corrected run test. */
  function IsTest(p: Path): (b: bool)
    ensures b <==> exists i :: RunAt(p, ["dev", "tests"], i)
  {
    HasRun(p, ["dev", "tests"])
  }

  /** `path.is_test()` as written. */
  function IsTestAsWritten(p: Path): (b: bool)
    ensures b ==> IsTest(p)
    ensures AtMostOnce(p, "dev") ==> b == IsTest(p)
  {
    FirstRunIsRun(p, ["dev", "tests"]);
    FirstRunAgreesIf(p, ["dev", "tests"]);
    FirstRunMatches(p, ["dev", "tests"])
  }

  /** A checkout under a `dev` directory hides its `dev/tests` from the scan as written. */
  lemma IsTestAsWrittenDiverges()
    ensures var p := ["home", "dev", "shop", "dev", "tests", "unit"];
      !IsTestAsWritten(p) && IsTest(p)
  {
    var p := ["home", "dev", "shop", "dev", "tests", "unit"];
    FirstIndexAt(p, "dev", 1);
    assert p[1..3] == [p[1], p[2]];
    assert p[3..5] == [p[3], p[4]];
    RunGivesHasRun(p, ["dev", "tests"], 3);
  }

  /** A path under `view/frontend` is a frontend path and has the frontend area unless a base directory is also on it. */
  lemma FrontendViewArea(p: Path, i: nat)
    requires RunAt(p, ["view", "frontend"], i)
    ensures IsFrontend(p)
    ensures !HasRun(p, ["view", "base"]) && !HasRun(p, ["design", "base"]) ==> GetArea(p) == Frontend
  {
    assert HasRunFrom(p, ["view", "frontend"], 0);
  }

  // ---------------------------------------------------------------------
  // Character tests
  // ---------------------------------------------------------------------

  predicate ModuleNameChar(c: char) {
    IsAlphanumeric(c) || c == '_'
  }

  predicate ClassNameChar(c: char) {
    IsAlphanumeric(c) || c == '\\'
  }

  /** Every character may appear in a module name (`Vendor_Module`). */
  predicate PartOfModuleName(text: string) {
    forall i :: 0 <= i < |text| ==> ModuleNameChar(text[i])
  }

  /** Every character may appear in a class name (`Vendor\Module\Class`). */
  predicate PartOfClassName(text: string) {
    forall i :: 0 <= i < |text| ==> ClassNameChar(text[i])
  }

  /** `is_part_of_module_name`: an early-return scan over the characters. */
  method IsPartOfModuleName(text: string) returns (b: bool)
    ensures b <==> PartOfModuleName(text)
  {
    var i := 0;
    while i < |text|
      invariant 0 <= i <= |text|
      invariant forall j :: 0 <= j < i ==> ModuleNameChar(text[j])
    {
      if !IsAlphanumeric(text[i]) && text[i] != '_' {
        return false;
      }
      i := i + 1;
    }
    return true;
  }

  /** `is_part_of_class_name`: an early-return scan over the characters. */
  method IsPartOfClassName(text: string) returns (b: bool)
    ensures b <==> PartOfClassName(text)
  {
    var i := 0;
    while i < |text|
      invariant 0 <= i <= |text|
      invariant forall j :: 0 <= j < i ==> ClassNameChar(text[j])
    {
      if !IsAlphanumeric(text[i]) && text[i] != '\\' {
        return false;
      }
      i := i + 1;
    }
    return true;
  }

  /** The unit tests of the two character tests. */
  lemma NameTestExamples()
    ensures PartOfModuleName("Some_Module") && !PartOfModuleName("Some\\Module") && PartOfModuleName("N")
    ensures !PartOfClassName("Some_Module") && PartOfClassName("Some\\Module") && PartOfClassName("N")
    ensures PartOfModuleName("") && PartOfClassName("")
  {
    assert !ModuleNameChar("Some\\Module"[4]);
    assert !ClassNameChar("Some_Module"[4]);
  }
}

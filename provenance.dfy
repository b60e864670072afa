/**
 * The facts of the second-generation index as values: the tables, the
 * record of which source file contributed which key, the insertions
 * that record provenance, and the retraction of one file's facts.
 * The `State` class is proved against these definitions.
 */
module Provenance {
  import opened Options
  import opened Paths
  import opened M2
  import Js

  /** `HashMapId::id`: the slot of an area in the per-area tables. */
  function AreaId(area: Area): (i: nat)
    ensures i < 3
    ensures area == Frontend <==> i == 0
    ensures area == Adminhtml <==> i == 1
    ensures area == Base <==> i == 2
  {
    match area
    case Frontend => 0
    case Adminhtml => 1
    case Base => 2
  }

  /** A key contributed by a source file, tagged with the table it lives in. */
  datatype Trackee =
    | Module(name: string)
    | ModulePath(name: string)
    | JsMap(area: Area, name: string)
    | JsMixin(area: Area, name: string)
    | Themes(area: Area, name: string)

  /** The indexed facts: module list, module paths, themes and the per-area RequireJS tables. */
  datatype Tables = Tables(
    modules: seq<string>,
    modulePaths: map<string, Path>,
    frontThemes: map<string, Path>,
    adminThemes: map<string, Path>,
    jsMaps: seq<map<string, string>>,
    jsMixins: seq<map<string, seq<Item>>>)

  /** One table per area, as the fixed-size arrays of the source have. */
  predicate WellSized(t: Tables) {
    |t.jsMaps| == 3 && |t.jsMixins| == 3
  }

  const EmptyTables: Tables := Tables([], map[], map[], map[], [map[], map[], map[]], [map[], map[], map[]])

  // ---------------------------------------------------------------------
  // Retraction (clear_from_source)
  // ---------------------------------------------------------------------

  /** `Vec::retain(|m| m != x)`: every copy of `x` removed, the rest in order. */
  function Without(s: seq<string>, x: string): (r: seq<string>)
    ensures |r| <= |s|
    ensures forall y :: y in r <==> y in s && y != x
  {
    if |s| == 0 then []
    else (if s[0] == x then [] else [s[0]]) + Without(s[1..], x)
  }

  /** Remove the one key a trackee names; a Base theme leaves both theme maps. */
  function Retract(t: Tables, x: Trackee): (r: Tables)
    requires WellSized(t)
    ensures WellSized(r)
  {
    match x
    case Module(m) => t.(modules := Without(t.modules, m))
    case ModulePath(m) => t.(modulePaths := t.modulePaths - {m})
    case JsMap(a, n) => t.(jsMaps := t.jsMaps[AreaId(a) := t.jsMaps[AreaId(a)] - {n}])
    case JsMixin(a, n) => t.(jsMixins := t.jsMixins[AreaId(a) := t.jsMixins[AreaId(a)] - {n}])
    case Themes(Frontend, n) => t.(frontThemes := t.frontThemes - {n})
    case Themes(Adminhtml, n) => t.(adminThemes := t.adminThemes - {n})
    case Themes(Base, n) => t.(frontThemes := t.frontThemes - {n}, adminThemes := t.adminThemes - {n})
  }

  /** The trackees of one file, retracted in the order they were recorded. */
  function RetractAll(t: Tables, xs: seq<Trackee>): (r: Tables)
    requires WellSized(t)
    ensures WellSized(r)
    decreases |xs|
  {
    if |xs| == 0 then t else RetractAll(Retract(t, xs[0]), xs[1..])
  }

  lemma InTail<T>(xs: seq<T>, y: T)
    requires |xs| > 0
    ensures y in xs <==> xs[0] == y || y in xs[1..]
  {
    assert xs == [xs[0]] + xs[1..];
  }

  /** A module stays listed exactly when it was listed and no trackee names it. */
  lemma {:induction false} RetractAllModules(t: Tables, xs: seq<Trackee>, m: string)
    requires WellSized(t)
    ensures m in RetractAll(t, xs).modules <==> m in t.modules && Module(m) !in xs
    decreases |xs|
  {
    if |xs| > 0 {
      RetractAllModules(Retract(t, xs[0]), xs[1..], m);
      assert xs == [xs[0]] + xs[1..];
    }
  }

  /** A module path stays exactly when no trackee names it, and keeps its value. */
  lemma {:induction false} RetractAllModulePaths(t: Tables, xs: seq<Trackee>, m: string)
    requires WellSized(t)
    ensures m in RetractAll(t, xs).modulePaths <==> m in t.modulePaths && ModulePath(m) !in xs
    ensures m in RetractAll(t, xs).modulePaths ==> RetractAll(t, xs).modulePaths[m] == t.modulePaths[m]
    decreases |xs|
  {
    if |xs| > 0 {
      RetractAllModulePaths(Retract(t, xs[0]), xs[1..], m);
      assert xs == [xs[0]] + xs[1..];
    }
  }

  /** A front theme stays exactly when it is retracted neither as a Frontend nor as a Base theme. */
  lemma {:induction false} RetractAllFrontThemes(t: Tables, xs: seq<Trackee>, n: string)
    requires WellSized(t)
    ensures n in RetractAll(t, xs).frontThemes <==>
      n in t.frontThemes && Themes(Frontend, n) !in xs && Themes(Base, n) !in xs
    ensures n in RetractAll(t, xs).frontThemes ==> RetractAll(t, xs).frontThemes[n] == t.frontThemes[n]
    decreases |xs|
  {
    if |xs| > 0 {
      var t' := Retract(t, xs[0]);
      assert n in t'.frontThemes <==> n in t.frontThemes && xs[0] != Themes(Frontend, n) && xs[0] != Themes(Base, n);
      RetractAllFrontThemes(t', xs[1..], n);
      assert xs == [xs[0]] + xs[1..];
    }
  }

  /** An admin theme stays exactly when it is retracted neither as an Adminhtml nor as a Base theme. */
  lemma {:induction false} RetractAllAdminThemes(t: Tables, xs: seq<Trackee>, n: string)
    requires WellSized(t)
    ensures n in RetractAll(t, xs).adminThemes <==>
      n in t.adminThemes && Themes(Adminhtml, n) !in xs && Themes(Base, n) !in xs
    ensures n in RetractAll(t, xs).adminThemes ==> RetractAll(t, xs).adminThemes[n] == t.adminThemes[n]
    decreases |xs|
  {
    if |xs| > 0 {
      var t' := Retract(t, xs[0]);
      assert n in t'.adminThemes <==> n in t.adminThemes && xs[0] != Themes(Adminhtml, n) && xs[0] != Themes(Base, n);
      RetractAllAdminThemes(t', xs[1..], n);
      assert xs == [xs[0]] + xs[1..];
    }
  }

  /** A component map of an area stays exactly when no trackee names it for that area. */
  lemma {:induction false} RetractAllJsMaps(t: Tables, xs: seq<Trackee>, a: Area, n: string)
    requires WellSized(t)
    ensures n in RetractAll(t, xs).jsMaps[AreaId(a)] <==> n in t.jsMaps[AreaId(a)] && JsMap(a, n) !in xs
    ensures n in RetractAll(t, xs).jsMaps[AreaId(a)] ==>
      RetractAll(t, xs).jsMaps[AreaId(a)][n] == t.jsMaps[AreaId(a)][n]
    decreases |xs|
  {
    if |xs| > 0 {
      RetractOneJsMap(t, xs[0], a, n);
      RetractAllJsMaps(Retract(t, xs[0]), xs[1..], a, n);
      InTail(xs, JsMap(a, n));
    }
  }

  lemma RetractOneJsMap(t: Tables, x: Trackee, a: Area, n: string)
    requires WellSized(t)
    ensures n in Retract(t, x).jsMaps[AreaId(a)] <==> n in t.jsMaps[AreaId(a)] && x != JsMap(a, n)
    ensures n in Retract(t, x).jsMaps[AreaId(a)] ==> Retract(t, x).jsMaps[AreaId(a)][n] == t.jsMaps[AreaId(a)][n]
  {
  }

  /** A mixin list of an area stays exactly when no trackee names it for that area. */
  lemma {:induction false} RetractAllJsMixins(t: Tables, xs: seq<Trackee>, a: Area, n: string)
    requires WellSized(t)
    ensures n in RetractAll(t, xs).jsMixins[AreaId(a)] <==> n in t.jsMixins[AreaId(a)] && JsMixin(a, n) !in xs
    ensures n in RetractAll(t, xs).jsMixins[AreaId(a)] ==>
      RetractAll(t, xs).jsMixins[AreaId(a)][n] == t.jsMixins[AreaId(a)][n]
    decreases |xs|
  {
    if |xs| > 0 {
      RetractOneJsMixin(t, xs[0], a, n);
      RetractAllJsMixins(Retract(t, xs[0]), xs[1..], a, n);
      InTail(xs, JsMixin(a, n));
    }
  }

  lemma RetractOneJsMixin(t: Tables, x: Trackee, a: Area, n: string)
    requires WellSized(t)
    ensures n in Retract(t, x).jsMixins[AreaId(a)] <==> n in t.jsMixins[AreaId(a)] && x != JsMixin(a, n)
    ensures n in Retract(t, x).jsMixins[AreaId(a)] ==> Retract(t, x).jsMixins[AreaId(a)][n] == t.jsMixins[AreaId(a)][n]
  {
  }

  /** The key a trackee names is gone from its table. */
  predicate Absent(t: Tables, x: Trackee)
    requires WellSized(t)
  {
    match x
    case Module(m) => m !in t.modules
    case ModulePath(m) => m !in t.modulePaths
    case JsMap(a, n) => n !in t.jsMaps[AreaId(a)]
    case JsMixin(a, n) => n !in t.jsMixins[AreaId(a)]
    case Themes(Frontend, n) => n !in t.frontThemes
    case Themes(Adminhtml, n) => n !in t.adminThemes
    case Themes(Base, n) => n !in t.frontThemes && n !in t.adminThemes
  }

  /** Every key tracked under a file is gone after its facts are retracted. */
  lemma RetractAllRemoves(t: Tables, xs: seq<Trackee>, x: Trackee)
    requires WellSized(t) && x in xs
    ensures Absent(RetractAll(t, xs), x)
  {
    match x
    case Module(m) => RetractAllModules(t, xs, m);
    case ModulePath(m) => RetractAllModulePaths(t, xs, m);
    case JsMap(a, n) => RetractAllJsMaps(t, xs, a, n);
    case JsMixin(a, n) => RetractAllJsMixins(t, xs, a, n);
    case Themes(_, n) => RetractAllFrontThemes(t, xs, n); RetractAllAdminThemes(t, xs, n);
  }

  // ---------------------------------------------------------------------
  // Insertion with provenance
  // ---------------------------------------------------------------------

  /** Everything the index knows besides buffers and workspaces. */
  datatype Snap = Snap(source: Option<Path>, tracked: map<Path, seq<Trackee>>, tables: Tables)

  /** `TrackingList::maybe_track`: append to the current source file's list, if there is one. */
  function MaybeTrack(tracked: map<Path, seq<Trackee>>, source: Option<Path>, x: Trackee): (r: map<Path, seq<Trackee>>)
    ensures source.None? ==> r == tracked
    ensures source.Some? ==> r.Keys == tracked.Keys + {source.value}
    ensures source.Some? ==> r[source.value] == (if source.value in tracked then tracked[source.value] else []) + [x]
    ensures forall p :: p in tracked && Some(p) != source ==> r[p] == tracked[p]
  {
    match source
    case None => tracked
    case Some(p) => tracked[p := (if p in tracked then tracked[p] else []) + [x]]
  }

  /** One call that changes the index while a file is being indexed. */
  datatype Mutation =
    | SetSourceFile(path: Path)
    | ModuleAdded(name: string)
    | ModulePathAdded(name: string, path: Path)
    | AdminThemeAdded(name: string, path: Path)
    | FrontThemeAdded(name: string, path: Path)
    | ComponentMapAdded(name: string, val: string, area: Area)
    | ComponentMixinAdded(name: string, val: string, area: Area)

  /** The key an insertion records as contributed by the current source file. */
  function TrackeeOf(m: Mutation): (r: Option<Trackee>)
    ensures r.None? <==> m.SetSourceFile?
  {
    match m
    case SetSourceFile(_) => None
    case ModuleAdded(n) => Some(Module(n))
    case ModulePathAdded(n, _) => Some(ModulePath(n))
    case AdminThemeAdded(n, _) => Some(Themes(Adminhtml, n))
    case FrontThemeAdded(n, _) => Some(Themes(Frontend, n))
    case ComponentMapAdded(n, _, a) => Some(JsMap(a, n))
    case ComponentMixinAdded(n, _, a) => Some(JsMixin(a, n))
  }

  /** The mixin component `add_component_mixin` stores: the value read as a component of no file. */
  function MixinComponent(t: Tables, val: string): Option<Item> {
    Js.TextToComponent(t.modulePaths, val, [])
  }

  /** The tables after one insertion. */
  function Insert(t: Tables, m: Mutation): (r: Tables)
    requires WellSized(t)
    ensures WellSized(r)
  {
    match m
    case SetSourceFile(_) => t
    case ModuleAdded(n) => t.(modules := t.modules + [n])
    case ModulePathAdded(n, p) => t.(modulePaths := t.modulePaths[n := p])
    case AdminThemeAdded(n, p) => t.(adminThemes := t.adminThemes[n := p])
    case FrontThemeAdded(n, p) => t.(frontThemes := t.frontThemes[n := p])
    case ComponentMapAdded(n, v, a) => t.(jsMaps := t.jsMaps[AreaId(a) := t.jsMaps[AreaId(a)][n := v]])
    case ComponentMixinAdded(n, v, a) =>
      match MixinComponent(t, v)
      case None => t
      case Some(c) =>
        var table := t.jsMixins[AreaId(a)];
        var list := if n in table then table[n] else [];
        t.(jsMixins := t.jsMixins[AreaId(a) := table[n := list + [c]]])
  }

  /**
   * `add_component_map` then `get_component_map` in the same area gives
   * the value just added; the tables of the other two areas are unchanged.
   */
  lemma ComponentMapInsert(t: Tables, n: string, v: string, a: Area, b: Area)
    requires WellSized(t)
    ensures var r := Insert(t, ComponentMapAdded(n, v, a));
      n in r.jsMaps[AreaId(a)] && r.jsMaps[AreaId(a)][n] == v
      && (b != a ==> r.jsMaps[AreaId(b)] == t.jsMaps[AreaId(b)])
      && r.jsMixins == t.jsMixins
  {
  }

  /**
   * `add_component_mixin` appends to the list for the name instead of
   * replacing it, and changes nothing when the value is no component.
   */
  lemma MixinInsert(t: Tables, n: string, v: string, a: Area)
    requires WellSized(t)
    ensures var r := Insert(t, ComponentMixinAdded(n, v, a));
      var before := if n in t.jsMixins[AreaId(a)] then t.jsMixins[AreaId(a)][n] else [];
      (MixinComponent(t, v).None? ==> r == t)
      && (MixinComponent(t, v).Some? ==>
            n in r.jsMixins[AreaId(a)] && r.jsMixins[AreaId(a)][n] == before + [MixinComponent(t, v).value])
  {
  }

  /** One call: set the source file, or record provenance and insert. */
  function Apply(s: Snap, m: Mutation): (r: Snap)
    requires WellSized(s.tables)
    ensures WellSized(r.tables)
  {
    match m
    case SetSourceFile(p) => s.(source := Some(p))
    case _ => Snap(s.source, MaybeTrack(s.tracked, s.source, TrackeeOf(m).value), Insert(s.tables, m))
  }

  /** A sequence of calls, in order. */
  function Run(s: Snap, ms: seq<Mutation>): (r: Snap)
    requires WellSized(s.tables)
    ensures WellSized(r.tables)
    decreases |ms|
  {
    if |ms| == 0 then s else Run(Apply(s, ms[0]), ms[1..])
  }

  /** `clear_from_source(p)`: drop `p`'s tracking list and retract everything on it. */
  function Clear(s: Snap, p: Path): (r: Snap)
    requires WellSized(s.tables)
    ensures WellSized(r.tables)
    ensures p !in r.tracked && r.source == s.source
    ensures r.tracked == s.tracked - {p}
    ensures p in s.tracked ==> r.tables == RetractAll(s.tables, s.tracked[p])
    ensures p !in s.tracked ==> r == s
  {
    if p in s.tracked then Snap(s.source, s.tracked - {p}, RetractAll(s.tables, s.tracked[p])) else s
  }

  /** The keys the calls record, in order. */
  function Trackees(ms: seq<Mutation>): (xs: seq<Trackee>)
    ensures forall x :: x in xs <==> exists i :: 0 <= i < |ms| && TrackeeOf(ms[i]) == Some(x)
  {
    if |ms| == 0 then []
    else
      var rest := Trackees(ms[1..]);
      assert forall i :: 1 <= i < |ms| ==> ms[i] == ms[1..][i - 1];
      (if TrackeeOf(ms[0]).Some? then [TrackeeOf(ms[0]).value] else []) + rest
  }

  predicate NoSourceChange(ms: seq<Mutation>) {
    forall i :: 0 <= i < |ms| ==> !ms[i].SetSourceFile?
  }

  /** Without a source file nothing is tracked, whatever is inserted. */
  lemma {:induction false} RunWithoutSource(s: Snap, ms: seq<Mutation>)
    requires WellSized(s.tables) && s.source.None? && NoSourceChange(ms)
    ensures Run(s, ms).tracked == s.tracked
    decreases |ms|
  {
    if |ms| > 0 {
      assert !ms[0].SetSourceFile?;
      RunWithoutSource(Apply(s, ms[0]), ms[1..]);
    }
  }

  /** One insertion under source file `p` appends its trackee to `p`'s list. */
  lemma ApplyTracks(s: Snap, m: Mutation, p: Path)
    requires WellSized(s.tables) && s.source == Some(p) && !m.SetSourceFile?
    ensures Apply(s, m).source == Some(p)
    ensures Apply(s, m).tracked == s.tracked[p := (if p in s.tracked then s.tracked[p] else []) + [TrackeeOf(m).value]]
  {
  }

  lemma NoSourceChangeTail(ms: seq<Mutation>)
    requires |ms| > 0 && NoSourceChange(ms)
    ensures !ms[0].SetSourceFile? && NoSourceChange(ms[1..])
  {
    forall i | 0 <= i < |ms[1..]| ensures !ms[1..][i].SetSourceFile? {
      assert ms[1..][i] == ms[i + 1];
    }
  }

  /** With source file `p`, every insertion is recorded under `p`, in order. */
  lemma {:induction false} RunTracksUnderSource(s: Snap, ms: seq<Mutation>, p: Path)
    requires WellSized(s.tables) && s.source == Some(p) && NoSourceChange(ms)
    ensures Run(s, ms).source == Some(p)
    ensures |ms| > 0 ==> p in Run(s, ms).tracked
    ensures p in Run(s, ms).tracked ==>
      Run(s, ms).tracked[p] == (if p in s.tracked then s.tracked[p] else []) + Trackees(ms)
    decreases |ms|
  {
    if |ms| > 0 {
      NoSourceChangeTail(ms);
      var s1 := Apply(s, ms[0]);
      var x := TrackeeOf(ms[0]).value;
      var before := if p in s.tracked then s.tracked[p] else [];
      assert s1.source == Some(p) && p in s1.tracked && s1.tracked[p] == before + [x] by {
        ApplyTracks(s, ms[0], p);
      }
      assert Trackees(ms) == [x] + Trackees(ms[1..]);
      RunTracksUnderSource(s1, ms[1..], p);
      assert Run(s, ms) == Run(s1, ms[1..]);
      ConcatAssoc(before, [x], Trackees(ms[1..]));
    }
  }

  /** With source file `p`, the lists of every other file are untouched. */
  lemma {:induction false} RunKeepsOtherFiles(s: Snap, ms: seq<Mutation>, p: Path, q: Path)
    requires WellSized(s.tables) && s.source == Some(p) && NoSourceChange(ms) && q != p
    ensures q in Run(s, ms).tracked <==> q in s.tracked
    ensures q in s.tracked ==> Run(s, ms).tracked[q] == s.tracked[q]
    decreases |ms|
  {
    if |ms| > 0 {
      NoSourceChangeTail(ms);
      var s1 := Apply(s, ms[0]);
      ApplyTracks(s, ms[0], p);
      RunKeepsOtherFiles(s1, ms[1..], p, q);
      assert Run(s, ms) == Run(s1, ms[1..]);
    }
  }

  /**
   * Indexing a file from scratch and then clearing it leaves none of
   * the keys it inserted: retraction is by key, so this holds even for
   * keys that other files had contributed as well.
   */
  lemma ClearUndoesIndexing(s: Snap, ms: seq<Mutation>, p: Path, x: Trackee)
    requires WellSized(s.tables) && s.source == Some(p) && p !in s.tracked && NoSourceChange(ms)
    requires x in Trackees(ms)
    ensures Absent(Clear(Run(s, ms), p).tables, x)
  {
    RunTracksUnderSource(s, ms, p);
    RetractAllRemoves(Run(s, ms).tables, Run(s, ms).tracked[p], x);
  }

  /**
   * Retraction is by key, not by contribution: file `a` registers module
   * path `n`, file `b` then registers `n` again with its own path, and
   * clearing `a` still removes `n`, although `b` holds the current value
   * and still tracks it.
   */
  lemma ClearTakesSharedKey(a: Path, b: Path, n: string, pa: Path, pb: Path)
    requires a != b
    ensures var s := Run(Snap(None, map[], EmptyTables),
                         [SetSourceFile(a), ModulePathAdded(n, pa), SetSourceFile(b), ModulePathAdded(n, pb)]);
      s.tables.modulePaths == map[n := pb]
      && b in s.tracked && ModulePath(n) in s.tracked[b]
      && n !in Clear(s, a).tables.modulePaths
      && b in Clear(s, a).tracked
  {
    var ms := [SetSourceFile(a), ModulePathAdded(n, pa), SetSourceFile(b), ModulePathAdded(n, pb)];
    var s0 := Snap(None, map[], EmptyTables);
    var s1 := Apply(s0, ms[0]);
    var s2 := Apply(s1, ms[1]);
    var s3 := Apply(s2, ms[2]);
    var s4 := Apply(s3, ms[3]);
    assert Run(s0, ms) == s4 by {
      var t1 := [ModulePathAdded(n, pa), SetSourceFile(b), ModulePathAdded(n, pb)];
      var t2 := [SetSourceFile(b), ModulePathAdded(n, pb)];
      var t3 := [ModulePathAdded(n, pb)];
      assert ms[1..] == t1 && t1[1..] == t2 && t2[1..] == t3 && t3[1..] == [];
      assert Run(s0, ms) == Run(s1, t1);
      assert Run(s1, t1) == Run(s2, t2);
      assert Run(s2, t2) == Run(s3, t3);
      assert Run(s3, t3) == Run(s4, []);
    }
    assert s1.source == Some(a) && s1.tracked == map[];
    assert a in s2.tracked && s2.tracked[a] == [ModulePath(n)];
    assert s2.tables.modulePaths == map[n := pa];
    assert s3.source == Some(b) && s3.tracked == s2.tracked && s3.tables == s2.tables;
    assert b in s4.tracked && s4.tracked[b] == [ModulePath(n)] && s4.tracked[a] == [ModulePath(n)];
    assert s4.tables.modulePaths == map[n := pa][n := pb];
    RetractAllModulePaths(s4.tables, s4.tracked[a], n);
  }
}

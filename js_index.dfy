/**
 * Filling the RequireJS tables of the index from one
 * `requirejs-config.js`: every `map`/`paths` entry becomes an alias,
 * every `mixins` entry a mixin, later entries overwriting earlier ones.
 */
module JsIndex {
  import opened Options
  import opened Js
  import opened Indexing

  /**
   * One query match in a config file: the node naming the section
   * (`map`, `paths` or `mixins`), the key node and the value node.
   */
  datatype ConfigMatch = ConfigMatch(section: JsNode, key: JsNode, val: JsNode)

  predicate WellFormedMatch(m: ConfigMatch) {
    Delimited(m.section) && Delimited(m.key) && Delimited(m.val)
  }

  /** The two tables the config fills. */
  datatype Tables = Tables(maps: map<string, string>, mixins: map<string, string>)

  /** What a match says: its section (if it is one the server reads), its key and its value. */
  datatype ConfigEntry = ConfigEntry(kind: Option<JsType>, key: string, val: string)

  function EntryOf(m: ConfigMatch): (e: ConfigEntry)
    requires WellFormedMatch(m)
  {
    ConfigEntry(GetKind(m.section), GetNodeText(m.key), GetNodeText(m.val))
  }

  /** The entries of a config's matches, in order. */
  function EntriesOf(ms: seq<ConfigMatch>): (es: seq<ConfigEntry>)
    requires forall i :: 0 <= i < |ms| ==> WellFormedMatch(ms[i])
    ensures |es| == |ms|
  {
    if |ms| == 0 then []
    else
      var before := EntriesOf(ms[..|ms| - 1]);
      before + [EntryOf(ms[|ms| - 1])]
  }

  lemma {:induction false} EntriesOfPrefix(ms: seq<ConfigMatch>, i: nat)
    requires forall j :: 0 <= j < |ms| ==> WellFormedMatch(ms[j])
    requires i < |ms|
    ensures EntriesOf(ms[..i + 1]) == EntriesOf(ms[..i]) + [EntryOf(ms[i])]
  {
    assert ms[..i + 1][..i] == ms[..i];
  }

  /** Entry `i` is what match `i` says. */
  lemma {:induction false} EntriesOfAt(ms: seq<ConfigMatch>, i: nat)
    requires forall j :: 0 <= j < |ms| ==> WellFormedMatch(ms[j])
    requires i < |ms|
    ensures EntriesOf(ms)[i] == EntryOf(ms[i])
    decreases |ms|
  {
    if i < |ms| - 1 {
      var prefix := ms[..|ms| - 1];
      assert prefix[i] == ms[i];
      EntriesOfAt(prefix, i);
    }
  }

  /** One entry: an alias for `map` and `paths`, a mixin for `mixins`, nothing otherwise. */
  function ApplyEntry(t: Tables, e: ConfigEntry): (r: Tables)
  {
    match e.kind
    case Some(MixinsSection) => Tables(t.maps, t.mixins[e.key := e.val])
    case Some(_) => Tables(t.maps[e.key := e.val], t.mixins)
    case None => t
  }

  /** All entries, in order. */
  function ApplyConfig(t: Tables, es: seq<ConfigEntry>): (r: Tables)
  {
    if |es| == 0 then t
    else ApplyEntry(ApplyConfig(t, es[..|es| - 1]), es[|es| - 1])
  }

  /** The entry is an alias (`map` or `paths`) for `key`. */
  predicate IsAliasFor(e: ConfigEntry, key: string) {
    (e.kind == Some(MapSection) || e.kind == Some(PathsSection)) && e.key == key
  }

  /** The entry is a mixin for `key`. */
  predicate IsMixinFor(e: ConfigEntry, key: string) {
    e.kind == Some(MixinsSection) && e.key == key
  }

  lemma ApplyConfigStep(t: Tables, es: seq<ConfigEntry>, e: ConfigEntry)
    ensures ApplyConfig(t, es + [e]) == ApplyEntry(ApplyConfig(t, es), e)
  {
    assert (es + [e])[..|es|] == es;
  }

  /** Hand one entry to `add_component_map` or `add_component_mixin`, by its section. */
  method AddEntry(index: Indexer, e: ConfigEntry)
    modifies index
    ensures Tables(index.jsMaps, index.jsMixins) == ApplyEntry(Tables(old(index.jsMaps), old(index.jsMixins)), e)
    ensures index.modules == old(index.modules)
    ensures index.frontThemes == old(index.frontThemes) && index.adminThemes == old(index.adminThemes)
  {
    match e.kind {
      case Some(MapSection) =>
        var _ := index.AddComponentMap(e.key, e.val);
      case Some(PathsSection) =>
        var _ := index.AddComponentMap(e.key, e.val);
      case Some(MixinsSection) =>
        var _ := index.AddComponentMixin(e.key, e.val);
      case None =>
    }
  }

  /**
   * `update_index_from_config`: walk the matches and hand each entry to
   * `add_component_map` or `add_component_mixin`.
   */
  method UpdateIndexFromConfig(index: Indexer, ms: seq<ConfigMatch>)
    requires forall i :: 0 <= i < |ms| ==> WellFormedMatch(ms[i])
    modifies index
    ensures Tables(index.jsMaps, index.jsMixins) ==
      ApplyConfig(Tables(old(index.jsMaps), old(index.jsMixins)), EntriesOf(ms))
    ensures index.modules == old(index.modules)
    ensures index.frontThemes == old(index.frontThemes) && index.adminThemes == old(index.adminThemes)
  {
    ghost var start := Tables(index.jsMaps, index.jsMixins);
    var i := 0;
    while i < |ms|
      invariant 0 <= i <= |ms|
      invariant Tables(index.jsMaps, index.jsMixins) == ApplyConfig(start, EntriesOf(ms[..i]))
      invariant index.modules == old(index.modules)
      invariant index.frontThemes == old(index.frontThemes) && index.adminThemes == old(index.adminThemes)
    {
      EntriesOfPrefix(ms, i);
      var m := ms[i];
      var entry := ConfigEntry(GetKind(m.section), GetNodeText(m.key), GetNodeText(m.val));
      ApplyConfigStep(start, EntriesOf(ms[..i]), entry);
      AddEntry(index, entry);
      i := i + 1;
    }
    assert ms[..i] == ms;
  }

  /**
   * After a config is read, an alias holds the value of the LAST `map`
   * or `paths` entry for its key.
   */
  lemma {:induction false} LastAliasWins(t: Tables, es: seq<ConfigEntry>, key: string, i: nat)
    requires i < |es| && IsAliasFor(es[i], key)
    requires forall j :: i < j < |es| ==> !IsAliasFor(es[j], key)
    ensures key in ApplyConfig(t, es).maps
    ensures ApplyConfig(t, es).maps[key] == es[i].val
    decreases |es|
  {
    var n := |es| - 1;
    if i < n {
      var prefix := es[..n];
      assert prefix[i] == es[i];
      forall j | i < j < |prefix| ensures !IsAliasFor(prefix[j], key) {
        assert prefix[j] == es[j];
      }
      LastAliasWins(t, prefix, key, i);
    }
  }

  /** A key no alias entry names keeps the alias it had (or its absence). */
  lemma {:induction false} AliasUntouched(t: Tables, es: seq<ConfigEntry>, key: string)
    requires forall j :: 0 <= j < |es| ==> !IsAliasFor(es[j], key)
    ensures key in ApplyConfig(t, es).maps <==> key in t.maps
    ensures key in t.maps ==> ApplyConfig(t, es).maps[key] == t.maps[key]
    decreases |es|
  {
    if |es| > 0 {
      var prefix := es[..|es| - 1];
      forall j | 0 <= j < |prefix| ensures !IsAliasFor(prefix[j], key) {
        assert prefix[j] == es[j];
      }
      AliasUntouched(t, prefix, key);
    }
  }

  /** After a config is read, a mixin holds the value of the LAST `mixins` entry for its key. */
  lemma {:induction false} LastMixinWins(t: Tables, es: seq<ConfigEntry>, key: string, i: nat)
    requires i < |es| && IsMixinFor(es[i], key)
    requires forall j :: i < j < |es| ==> !IsMixinFor(es[j], key)
    ensures key in ApplyConfig(t, es).mixins
    ensures ApplyConfig(t, es).mixins[key] == es[i].val
    decreases |es|
  {
    var n := |es| - 1;
    if i < n {
      var prefix := es[..n];
      assert prefix[i] == es[i];
      forall j | i < j < |prefix| ensures !IsMixinFor(prefix[j], key) {
        assert prefix[j] == es[j];
      }
      LastMixinWins(t, prefix, key, i);
    }
  }

  /** Entries of an unknown section change neither table. */
  lemma {:induction false} UnknownSectionsIgnored(t: Tables, es: seq<ConfigEntry>)
    requires forall j :: 0 <= j < |es| ==> es[j].kind.None?
    ensures ApplyConfig(t, es) == t
    decreases |es|
  {
    if |es| > 0 {
      var prefix := es[..|es| - 1];
      forall j | 0 <= j < |prefix| ensures prefix[j].kind.None? {
        assert prefix[j] == es[j];
      }
      UnknownSectionsIgnored(t, prefix);
    }
  }
}

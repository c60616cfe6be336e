/** The model variant table: every base model definition expands into a base
    entry, a `-Thinking` entry and a `-Search` entry (`_build_model_variant_config`). */
module Variants {
  import opened Wrappers
  import opened Text
  import opened Json

  /** One base model definition; `None` stands for a missing key. */
  datatype ModelDefinition = ModelDefinition(
    upstreamId: Option<string>,
    description: Option<string>,
    thinkingDescription: Option<string>,
    searchDescription: Option<string>,
    defaultFeatures: map<string, Value>,
    mcpServers: Option<seq<string>>,
    thinkingMcpServers: Option<seq<string>>,
    searchMcpServers: Option<seq<string>>)

  /** One entry of the variant table. */
  datatype VariantEntry = VariantEntry(
    upstreamId: string,
    description: string,
    features: map<string, Value>,
    mcpServers: seq<string>)

  /** A Python dict in insertion order: its keys are distinct. */
  type Config = seq<(string, VariantEntry)>

  const DefaultVariantFeatures: map<string, Value> := map[
    "enable_thinking" := Bool(false),
    "web_search" := Bool(false),
    "auto_web_search" := Bool(false)
  ]

  const DefaultSearchMcpServers: seq<string> := ["deep-web-search"]

  // ---------------------------------------------------------------------------
  // Ordered dictionaries

  function Keys(c: Config): (ks: seq<string>)
    ensures |ks| == |c| && forall i :: 0 <= i < |c| ==> ks[i] == c[i].0
  {
    if c == [] then [] else [c[0].0] + Keys(c[1..])
  }

  /** `c.get(k)`. */
  function Lookup(c: Config, k: string): Option<VariantEntry> {
    if c == [] then None else if c[0].0 == k then Some(c[0].1) else Lookup(c[1..], k)
  }

  /** `c[k] = v`: an existing key keeps its place, a new key goes last. */
  function Put(c: Config, k: string, v: VariantEntry): (r: Config)
    ensures Lookup(r, k) == Some(v)
    ensures forall k' :: k' != k ==> Lookup(r, k') == Lookup(c, k')
  {
    if c == [] then [(k, v)]
    else if c[0].0 == k then [(k, v)] + c[1..]
    else [c[0]] + Put(c[1..], k, v)
  }

  /** An assignment adds its key to the keys, and adds no duplicate. */
  lemma {:induction false} PutKeys(c: Config, k: string, v: VariantEntry)
    ensures forall k' :: k' in Keys(Put(c, k, v)) <==> k' in Keys(c) || k' == k
    ensures NoDup(Keys(c)) ==> NoDup(Keys(Put(c, k, v)))
  {
    if c == [] {
      assert Keys(Put(c, k, v)) == [k];
    } else if c[0].0 == k {
      assert Keys(Put(c, k, v)) == [k] + Keys(c[1..]);
      assert Keys(c) == [k] + Keys(c[1..]);
    } else {
      PutKeys(c[1..], k, v);
      var r := Keys(Put(c[1..], k, v));
      assert Keys(Put(c, k, v)) == [c[0].0] + r;
      assert Keys(c) == [c[0].0] + Keys(c[1..]);
      if NoDup(Keys(c)) {
        assert NoDup(Keys(c[1..]));
        assert c[0].0 !in Keys(c[1..]);
        assert c[0].0 !in r;
      }
    }
  }

  /** The assignments of `es`, in order. */
  function PutAll(c: Config, es: seq<(string, VariantEntry)>): Config
    decreases |es|
  {
    if es == [] then c else PutAll(Put(c, es[0].0, es[0].1), es[1..])
  }

  /** The value of the last pair of `es` with key `k`. */
  function LastWith(es: seq<(string, VariantEntry)>, k: string): Option<VariantEntry> {
    if es == [] then None
    else
      var later := LastWith(es[1..], k);
      if later.Some? then later else if es[0].0 == k then Some(es[0].1) else None
  }

  // ---------------------------------------------------------------------------
  // Expansion of one definition

  /** `meta.get(key) or fallback` for an optional string. */
  function OrElse(s: Option<string>, fallback: string): string {
    if s.Some? && s.value != "" then s.value else fallback
  }

  function BaseFeatures(meta: ModelDefinition): map<string, Value> {
    DefaultVariantFeatures + meta.defaultFeatures
  }

  function BaseEntry(alias: string, meta: ModelDefinition): VariantEntry
    requires meta.upstreamId.Some?
  {
    var features := BaseFeatures(meta);
    var servers := if meta.mcpServers.Some? then meta.mcpServers.value else [];
    VariantEntry(
      meta.upstreamId.value,
      OrElse(meta.description, alias + " 标准模型"),
      features,
      if Truthy(Get(features, "web_search")) && servers == [] then DefaultSearchMcpServers else servers)
  }

  function ThinkingEntry(alias: string, meta: ModelDefinition): VariantEntry
    requires meta.upstreamId.Some?
  {
    VariantEntry(
      meta.upstreamId.value,
      OrElse(meta.thinkingDescription, alias + " 思考模型"),
      BaseFeatures(meta)["enable_thinking" := Bool(true)],
      if meta.thinkingMcpServers.Some? then meta.thinkingMcpServers.value
      else BaseEntry(alias, meta).mcpServers)
  }

  function SearchEntry(alias: string, meta: ModelDefinition): VariantEntry
    requires meta.upstreamId.Some?
  {
    VariantEntry(
      meta.upstreamId.value,
      OrElse(meta.searchDescription, alias + " 搜索模型"),
      BaseFeatures(meta)["web_search" := Bool(true)]["auto_web_search" := Bool(true)],
      if meta.searchMcpServers.Some? then meta.searchMcpServers.value else DefaultSearchMcpServers)
  }

  /** The upstream id is present and not empty. */
  predicate HasUpstream(meta: ModelDefinition) {
    meta.upstreamId.Some? && meta.upstreamId.value != ""
  }

  /** The assignments one definition makes to the table, in order. */
  function Expand(alias: string, meta: ModelDefinition): seq<(string, VariantEntry)> {
    if !HasUpstream(meta) then []
    else [
      (alias, BaseEntry(alias, meta)),
      (alias + "-Thinking", ThinkingEntry(alias, meta)),
      (alias + "-Search", SearchEntry(alias, meta))
    ]
  }

  /** Specification of `_build_model_variant_config`. */
  function BuildConfig(defs: seq<(string, ModelDefinition)>): Config {
    if defs == [] then []
    else
      var last := defs[|defs| - 1];
      PutAll(BuildConfig(defs[..|defs| - 1]), Expand(last.0, last.1))
  }

  /** Every assignment the build makes, in order. */
  function Produced(defs: seq<(string, ModelDefinition)>): seq<(string, VariantEntry)> {
    if defs == [] then []
    else
      var last := defs[|defs| - 1];
      Produced(defs[..|defs| - 1]) + Expand(last.0, last.1)
  }

  /** `_build_model_variant_config`, over the definitions in dict order. */
  method BuildModelVariantConfig(defs: seq<(string, ModelDefinition)>) returns (config: Config)
    ensures config == BuildConfig(defs)
    ensures NoDup(Keys(config))
  {
    config := [];
    for i := 0 to |defs|
      invariant config == BuildConfig(defs[..i])
      invariant NoDup(Keys(config))
    {
      assert defs[..i + 1][..i] == defs[..i];
      if !HasUpstream(defs[i].1) {
        continue;
      }
      config := AddVariants(config, defs[i].0, defs[i].1);
    }
    assert defs[..|defs|] == defs;
  }

  /** The loop body for one definition with an upstream id: its standard,
      thinking and search variants, written in that order. */
  method AddVariants(config: Config, alias: string, meta: ModelDefinition) returns (c: Config)
    requires HasUpstream(meta) && NoDup(Keys(config))
    ensures c == PutAll(config, Expand(alias, meta))
    ensures NoDup(Keys(c))
  {
    var baseFeatures := DefaultVariantFeatures + meta.defaultFeatures;
    var baseServers := if meta.mcpServers.Some? then meta.mcpServers.value else [];
    if Truthy(Get(baseFeatures, "web_search")) && baseServers == [] {
      baseServers := DefaultSearchMcpServers;
    }
    var base := VariantEntry(meta.upstreamId.value, OrElse(meta.description, alias + " 标准模型"), baseFeatures, baseServers);
    PutKeys(config, alias, base);
    c := Put(config, alias, base);

    var thinkingServers := if meta.thinkingMcpServers.Some? then meta.thinkingMcpServers.value else base.mcpServers;
    var thinking := VariantEntry(meta.upstreamId.value, OrElse(meta.thinkingDescription, alias + " 思考模型"),
      baseFeatures["enable_thinking" := Bool(true)], thinkingServers);
    PutKeys(c, alias + "-Thinking", thinking);
    c := Put(c, alias + "-Thinking", thinking);

    var searchServers := if meta.searchMcpServers.Some? then meta.searchMcpServers.value else DefaultSearchMcpServers;
    var search := VariantEntry(meta.upstreamId.value, OrElse(meta.searchDescription, alias + " 搜索模型"),
      baseFeatures["web_search" := Bool(true)]["auto_web_search" := Bool(true)], searchServers);
    PutKeys(c, alias + "-Search", search);
    c := Put(c, alias + "-Search", search);
    assert base == BaseEntry(alias, meta);
    assert thinking == ThinkingEntry(alias, meta);
    assert search == SearchEntry(alias, meta);
    PutAllThree(config, Expand(alias, meta));
  }

  lemma PutAllThree(c: Config, es: seq<(string, VariantEntry)>)
    requires |es| == 3
    ensures PutAll(c, es) == Put(Put(Put(c, es[0].0, es[0].1), es[1].0, es[1].1), es[2].0, es[2].1)
  {
    var c1 := Put(c, es[0].0, es[0].1);
    var c2 := Put(c1, es[1].0, es[1].1);
    var c3 := Put(c2, es[2].0, es[2].1);
    assert PutAll(c, es) == PutAll(c1, es[1..]);
    assert es[1..][0] == es[1] && es[1..][1..] == es[2..];
    assert PutAll(c1, es[1..]) == PutAll(c2, es[2..]);
    assert es[2..][0] == es[2] && es[2..][1..] == [];
    assert PutAll(c2, es[2..]) == PutAll(c3, []);
  }

  // ---------------------------------------------------------------------------
  // What the table holds

  lemma {:induction false} PutAllLookup(c: Config, es: seq<(string, VariantEntry)>, k: string)
    ensures Lookup(PutAll(c, es), k) == if LastWith(es, k).Some? then LastWith(es, k) else Lookup(c, k)
    decreases |es|
  {
    if es != [] {
      PutAllLookup(Put(c, es[0].0, es[0].1), es[1..], k);
    }
  }

  lemma {:induction false} LastWithConcat(a: seq<(string, VariantEntry)>, b: seq<(string, VariantEntry)>, k: string)
    ensures LastWith(a + b, k) == if LastWith(b, k).Some? then LastWith(b, k) else LastWith(a, k)
  {
    if a != [] {
      var ab := a + b;
      assert ab != [] && ab[1..] == a[1..] + b && ab[0] == a[0];
      LastWithConcat(a[1..], b, k);
      var later := LastWith(a[1..] + b, k);
      assert LastWith(ab, k) == if later.Some? then later else if a[0].0 == k then Some(a[0].1) else None;
    } else {
      assert a + b == b;
    }
  }

  /** Looking a key up in the built table finds the last assignment made to it. */
  lemma {:induction false} BuildLookup(defs: seq<(string, ModelDefinition)>, k: string)
    ensures Lookup(BuildConfig(defs), k) == LastWith(Produced(defs), k)
  {
    if defs != [] {
      var last := defs[|defs| - 1];
      BuildLookup(defs[..|defs| - 1], k);
      PutAllLookup(BuildConfig(defs[..|defs| - 1]), Expand(last.0, last.1), k);
      LastWithConcat(Produced(defs[..|defs| - 1]), Expand(last.0, last.1), k);
    }
  }

  /** The three keys one alias can produce. */
  function VariantKeys(alias: string): set<string> {
    {alias, alias + "-Thinking", alias + "-Search"}
  }

  /** No two definitions can produce the same key. */
  predicate KeysDisjoint(defs: seq<(string, ModelDefinition)>) {
    forall i, j :: 0 <= i < j < |defs| ==> VariantKeys(defs[i].0) !! VariantKeys(defs[j].0)
  }

  lemma {:induction false} LastWithAbsent(es: seq<(string, VariantEntry)>, k: string)
    requires forall i :: 0 <= i < |es| ==> es[i].0 != k
    ensures LastWith(es, k) == None
  {
    if es != [] {
      LastWithAbsent(es[1..], k);
    }
  }

  lemma ExpandKeys(alias: string, meta: ModelDefinition)
    ensures forall i :: 0 <= i < |Expand(alias, meta)| ==> Expand(alias, meta)[i].0 in VariantKeys(alias)
  {
  }

  /** When only definition `i` can produce key `k`, the table holds at `k`
      what that definition's expansion assigns to it. */
  lemma {:induction false} OnlySource(defs: seq<(string, ModelDefinition)>, i: nat, k: string)
    requires i < |defs| && KeysDisjoint(defs) && k in VariantKeys(defs[i].0)
    ensures Lookup(BuildConfig(defs), k) == LastWith(Expand(defs[i].0, defs[i].1), k)
  {
    BuildLookup(defs, k);
    OnlySourceProduced(defs, i, k);
  }

  lemma {:induction false} OnlySourceProduced(defs: seq<(string, ModelDefinition)>, i: nat, k: string)
    requires i < |defs| && KeysDisjoint(defs) && k in VariantKeys(defs[i].0)
    ensures LastWith(Produced(defs), k) == LastWith(Expand(defs[i].0, defs[i].1), k)
  {
    var n := |defs| - 1;
    var init := defs[..n];
    var last := defs[n];
    LastWithConcat(Produced(init), Expand(last.0, last.1), k);
    if i == n {
      ProducedAbsent(init, k);
      LastWithAbsent(Produced(init), k);
    } else {
      assert k !in VariantKeys(last.0) by {
        assert VariantKeys(defs[i].0) !! VariantKeys(defs[n].0);
      }
      ExpandKeys(last.0, last.1);
      LastWithAbsent(Expand(last.0, last.1), k);
      assert KeysDisjoint(init) by {
        forall a, b | 0 <= a < b < |init| ensures VariantKeys(init[a].0) !! VariantKeys(init[b].0) {
          assert init[a] == defs[a] && init[b] == defs[b];
        }
      }
      assert init[i] == defs[i];
      OnlySourceProduced(init, i, k);
    }
  }

  /** A key none of the definitions can produce is never assigned. */
  lemma {:induction false} ProducedAbsent(defs: seq<(string, ModelDefinition)>, k: string)
    requires forall j :: 0 <= j < |defs| ==> k !in VariantKeys(defs[j].0)
    ensures forall i :: 0 <= i < |Produced(defs)| ==> Produced(defs)[i].0 != k
  {
    if defs != [] {
      var n := |defs| - 1;
      var last := defs[n];
      assert forall j :: 0 <= j < n ==> defs[..n][j] == defs[j];
      ProducedAbsent(defs[..n], k);
      ExpandKeys(last.0, last.1);
    }
  }

  /** A definition without an upstream id contributes no entry. */
  lemma SkippedDefinition(defs: seq<(string, ModelDefinition)>, i: nat)
    requires i < |defs| && KeysDisjoint(defs) && !HasUpstream(defs[i].1)
    ensures forall k :: k in VariantKeys(defs[i].0) ==> Lookup(BuildConfig(defs), k) == None
  {
    forall k | k in VariantKeys(defs[i].0) ensures Lookup(BuildConfig(defs), k) == None {
      OnlySource(defs, i, k);
    }
  }

  lemma LastWithExpand(alias: string, meta: ModelDefinition)
    requires HasUpstream(meta)
    ensures LastWith(Expand(alias, meta), alias) == Some(BaseEntry(alias, meta))
    ensures LastWith(Expand(alias, meta), alias + "-Thinking") == Some(ThinkingEntry(alias, meta))
    ensures LastWith(Expand(alias, meta), alias + "-Search") == Some(SearchEntry(alias, meta))
  {
    var t, sr := alias + "-Thinking", alias + "-Search";
    assert alias != t && alias != sr by {
      assert |t| > |alias| && |sr| > |alias|;
    }
    assert t != sr by {
      assert t[|alias| + 1] == 'T';
      assert sr[|alias| + 1] == 'S';
    }
    var es := Expand(alias, meta);
    LastWithThree(es, alias);
    LastWithThree(es, t);
    LastWithThree(es, sr);
  }

  lemma LastWithThree(es: seq<(string, VariantEntry)>, k: string)
    requires |es| == 3
    ensures LastWith(es, k) ==
      if es[2].0 == k then Some(es[2].1)
      else if es[1].0 == k then Some(es[1].1)
      else if es[0].0 == k then Some(es[0].1)
      else None
  {
    assert es[1..][1..] == [es[2]];
    assert LastWith([es[2]], k) == if es[2].0 == k then Some(es[2].1) else None by {
      assert [es[2]][1..] == [];
    }
  }

  /** A definition with an upstream id yields its three variants, built by
      `BaseEntry`, `ThinkingEntry` and `SearchEntry`. */
  lemma ExpandedDefinition(defs: seq<(string, ModelDefinition)>, i: nat)
    requires i < |defs| && KeysDisjoint(defs) && HasUpstream(defs[i].1)
    ensures Lookup(BuildConfig(defs), defs[i].0) == Some(BaseEntry(defs[i].0, defs[i].1))
    ensures Lookup(BuildConfig(defs), defs[i].0 + "-Thinking") == Some(ThinkingEntry(defs[i].0, defs[i].1))
    ensures Lookup(BuildConfig(defs), defs[i].0 + "-Search") == Some(SearchEntry(defs[i].0, defs[i].1))
  {
    var alias, meta := defs[i].0, defs[i].1;
    OnlySource(defs, i, alias);
    OnlySource(defs, i, alias + "-Thinking");
    OnlySource(defs, i, alias + "-Search");
    LastWithExpand(alias, meta);
  }

  /** All three variants share the upstream id; the base features are the
      defaults overridden by the definition's own; `-Thinking` turns thinking
      on and `-Search` turns both search flags on, the rest as in the base. */
  lemma VariantFeatures(alias: string, meta: ModelDefinition)
    requires HasUpstream(meta)
    ensures var base, thinking, search := BaseEntry(alias, meta), ThinkingEntry(alias, meta), SearchEntry(alias, meta);
      && base.upstreamId == thinking.upstreamId == search.upstreamId == meta.upstreamId.value
      && (forall k :: k in base.features <==> k in DefaultVariantFeatures || k in meta.defaultFeatures)
      && (forall k :: k in base.features ==>
            base.features[k] == if k in meta.defaultFeatures then meta.defaultFeatures[k] else DefaultVariantFeatures[k])
      && thinking.features.Keys == base.features.Keys && thinking.features["enable_thinking"] == Bool(true)
      && (forall k :: k in base.features && k != "enable_thinking" ==> thinking.features[k] == base.features[k])
      && search.features.Keys == base.features.Keys
      && search.features["web_search"] == Bool(true) && search.features["auto_web_search"] == Bool(true)
      && (forall k :: k in base.features && k != "web_search" && k != "auto_web_search" ==>
            search.features[k] == base.features[k])
  {
  }

  /** The base servers are `["deep-web-search"]` exactly when web search is on
      and no servers were given (or those were given); servers that were given
      are kept. `-Thinking` uses its own servers or else the base ones,
      `-Search` its own or else `["deep-web-search"]`. */
  lemma VariantServers(alias: string, meta: ModelDefinition)
    requires HasUpstream(meta)
    ensures var base, thinking, search := BaseEntry(alias, meta), ThinkingEntry(alias, meta), SearchEntry(alias, meta);
      && (base.mcpServers == DefaultSearchMcpServers <==>
            (Truthy(base.features["web_search"]) && (meta.mcpServers.None? || meta.mcpServers.value == [])) ||
            meta.mcpServers == Some(DefaultSearchMcpServers))
      && (meta.mcpServers.Some? && meta.mcpServers.value != [] ==> base.mcpServers == meta.mcpServers.value)
      && (meta.mcpServers.None? && !Truthy(base.features["web_search"]) ==> base.mcpServers == [])
      && thinking.mcpServers == (if meta.thinkingMcpServers.Some? then meta.thinkingMcpServers.value else base.mcpServers)
      && search.mcpServers == (if meta.searchMcpServers.Some? then meta.searchMcpServers.value else DefaultSearchMcpServers)
  {
  }

  /** Descriptions fall back to the alias with a fixed suffix when missing or empty. */
  lemma VariantDescriptions(alias: string, meta: ModelDefinition)
    requires HasUpstream(meta)
    ensures BaseEntry(alias, meta).description ==
      (if meta.description.Some? && meta.description.value != "" then meta.description.value else alias + " 标准模型")
    ensures ThinkingEntry(alias, meta).description ==
      (if meta.thinkingDescription.Some? && meta.thinkingDescription.value != "" then meta.thinkingDescription.value else alias + " 思考模型")
    ensures SearchEntry(alias, meta).description ==
      (if meta.searchDescription.Some? && meta.searchDescription.value != "" then meta.searchDescription.value else alias + " 搜索模型")
  {
  }
}

/**
 * The request-shaping rules of the `/v1/chat/completions` route
 * (`OpenAI_Compatible`): which variant a requested model name selects, the
 * feature map sent upstream, the de-duplicated MCP-server list, and the
 * final message of a non-streaming reply, aggregated from the normalized
 * upstream events.
 */
module ChatRequest {
  import opened Wrappers
  import opened Text
  import opened Json
  import opened Variants
  import opened Normalizer

  // ---------------------------------------------------------------------------
  // Model resolution

  /** `(odata.get("model") or MODEL or "").strip() or MODEL`, where `model`
      is the request's `model` string (`None` when it is missing). */
  function RequestedModel(model: Option<string>, defaultModel: string): (r: string)
    // a request naming a non-blank model gets that name, stripped
    ensures model.Some? && Strip(model.value) != "" ==> r == Strip(model.value)
    // a blank name falls back to MODEL, stripped only when no name was given
    ensures model.Some? && model.value != "" && Strip(model.value) == "" ==> r == defaultModel
    ensures (model.None? || model.value == "") ==>
      r == if Strip(defaultModel) != "" then Strip(defaultModel) else defaultModel
  {
    var named := if model.Some? && model.value != "" then model.value else defaultModel;
    var s := Strip(named);
    if s != "" then s else defaultModel
  }

  /** The index of the first name equal to `r` up to ASCII case; `|names|`
      when there is none. */
  function FirstCaseMatch(names: seq<string>, r: string): (k: nat)
    ensures k <= |names|
    ensures k < |names| ==> Lower(names[k]) == Lower(r)
    ensures forall j :: 0 <= j < k ==> Lower(names[j]) != Lower(r)
  {
    if names == [] then 0
    else if Lower(names[0]) == Lower(r) then 0
    else 1 + FirstCaseMatch(names[1..], r)
  }

  /** The variant table entry, the upstream model id and the model name a
      request for `requested` resolves to. */
  datatype Resolution = Resolution(variant: Option<VariantEntry>, upstreamModel: string, model: string)

  /** `normalized_model`, `variant_config`, `upstream_model` and `model`. */
  function Resolve(config: Config, requested: string): Resolution {
    var k := FirstCaseMatch(Keys(config), requested);
    var normalized := if k < |config| then config[k].0 else requested;
    var v := Lookup(config, normalized);
    if v.Some? then Resolution(v, v.value.upstreamId, normalized)
    else Resolution(None, normalized, requested)
  }

  /** The case-insensitive variant lookup, with its `break` at the first
      match, followed by the table lookup. */
  method ResolveModel(config: Config, requested: string) returns (res: Resolution)
    ensures res == Resolve(config, requested)
  {
    var normalized := requested;
    var i := 0;
    while i < |config|
      invariant 0 <= i <= |config|
      invariant forall j :: 0 <= j < i ==> Lower(config[j].0) != Lower(requested)
    {
      if Lower(config[i].0) == Lower(requested) {
        normalized := config[i].0;
        break;
      }
      i := i + 1;
    }
    assert i == FirstCaseMatch(Keys(config), requested);
    var v := Lookup(config, normalized);
    if v.Some? {
      res := Resolution(v, v.value.upstreamId, normalized);
    } else {
      res := Resolution(None, normalized, requested);
    }
  }

  lemma {:induction false} LookupKey(c: Config, i: nat)
    requires i < |c|
    ensures Lookup(c, c[i].0).Some?
  {
    if i > 0 && c[0].0 != c[i].0 {
      LookupKey(c[1..], i - 1);
    }
  }

  lemma {:induction false} LookupAbsent(c: Config, k: string)
    requires forall i :: 0 <= i < |c| ==> c[i].0 != k
    ensures Lookup(c, k).None?
  {
    if c != [] {
      assert c[0].0 != k;
      LookupAbsent(c[1..], k);
    }
  }

  /** A request selects a variant exactly when some variant name equals the
      requested name up to ASCII case; it then gets the first such name as
      its model and that variant's upstream id. Otherwise the requested name
      is both the model and the upstream model. */
  lemma ResolveSpec(config: Config, requested: string)
    ensures var res := Resolve(config, requested);
      && (res.variant.Some? <==> exists i :: 0 <= i < |config| && Lower(config[i].0) == Lower(requested))
      && (res.variant.Some? ==>
            var k := FirstCaseMatch(Keys(config), requested);
            && k < |config| && res.model == config[k].0
            && res.variant == Lookup(config, config[k].0)
            && res.upstreamModel == res.variant.value.upstreamId)
      && (res.variant.None? ==> res.model == requested && res.upstreamModel == requested)
  {
    var k := FirstCaseMatch(Keys(config), requested);
    if k < |config| {
      LookupKey(config, k);
    } else {
      forall i | 0 <= i < |config| ensures Lower(config[i].0) != Lower(requested) && config[i].0 != requested {
        assert Keys(config)[i] == config[i].0;
      }
      LookupAbsent(config, requested);
    }
  }

  lemma LowerUpper(s: string)
    ensures Lower(Upper(s)) == Lower(s)
  {
    forall i | 0 <= i < |s| ensures Lower(Upper(s))[i] == Lower(s)[i] {
      assert LowerChar(UpperChar(s[i])) == LowerChar(s[i]);
    }
  }

  /** No two variant names differ only in ASCII case. */
  predicate CaseDistinct(config: Config) {
    forall i, j :: 0 <= i < j < |config| ==> Lower(config[i].0) != Lower(config[j].0)
  }

  lemma FirstMatchAt(names: seq<string>, r: string, i: nat)
    requires i < |names| && Lower(names[i]) == Lower(r)
    requires forall j :: 0 <= j < i ==> Lower(names[j]) != Lower(names[i])
    ensures FirstCaseMatch(names, r) == i
  {
  }

  /** When variant names are distinct up to case, any spelling of a variant
      name in other case, here all upper case, selects that variant under its
      own name. */
  lemma UpperCaseResolves(config: Config, i: nat)
    requires CaseDistinct(config) && i < |config|
    ensures var res := Resolve(config, Upper(config[i].0));
      res.model == config[i].0 && res.variant == Lookup(config, config[i].0)
  {
    var r := Upper(config[i].0);
    LowerUpper(config[i].0);
    var names := Keys(config);
    assert names[i] == config[i].0;
    forall j | 0 <= j < i ensures Lower(names[j]) != Lower(names[i]) {
      assert names[j] == config[j].0;
    }
    FirstMatchAt(names, r, i);
    LookupKey(config, i);
  }

  // ---------------------------------------------------------------------------
  // Feature layering

  const BoolFeatureKeys: seq<string> :=
    ["enable_thinking", "web_search", "auto_web_search", "image_generation", "preview_mode"]

  const ListFeatureKeys: seq<string> := ["flags", "features"]

  /** The feature map a request starts from. */
  const DefaultRequestFeatures: map<string, Value> := map[
    "image_generation" := Bool(false),
    "web_search" := Bool(false),
    "auto_web_search" := Bool(false),
    "preview_mode" := Bool(false),
    "flags" := Arr([]),
    "features" := Arr([]),
    "enable_thinking" := Bool(true)
  ]

  /** The request's `features`, when it is an object. */
  function RequestLayer(raw: Value): map<string, Value> {
    if raw.Obj? then raw.fields else map[]
  }

  /** The selected variant's `features`. */
  function VariantLayer(variant: Option<VariantEntry>): map<string, Value> {
    if variant.Some? then variant.value.features else map[]
  }

  /** The coercion applied to one feature: `bool(v)` for the switches, `[]`
      for a flag list that is not a list. */
  function CoerceValue(k: string, v: Value): Value {
    if k in BoolFeatureKeys then Bool(Truthy(v))
    else if k in ListFeatureKeys && !v.Arr? then Arr([])
    else v
  }

  function Coerced(f: map<string, Value>): map<string, Value> {
    map k | k in f :: CoerceValue(k, f[k])
  }

  /** The feature map sent upstream: defaults, then the request's features,
      then the variant's, then a boolean `reasoning` flag, then coercion. */
  function MergedFeatures(raw: Value, variant: Option<VariantEntry>, reasoning: Value): map<string, Value> {
    var layered := DefaultRequestFeatures + RequestLayer(raw) + VariantLayer(variant);
    var flagged := if reasoning.Bool? then layered["enable_thinking" := reasoning] else layered;
    Coerced(flagged)
  }

  /** `for key, value in layer.items(): features[key] = value`. */
  method Overlay(features: map<string, Value>, layer: map<string, Value>) returns (r: map<string, Value>)
    ensures r == features + layer
  {
    r := features;
    var rest := layer.Keys;
    while rest != {}
      invariant rest <= layer.Keys
      invariant forall k :: k in r <==> k in features || (k in layer && k !in rest)
      invariant forall k :: k in r ==> r[k] == if k in layer && k !in rest then layer[k] else features[k]
      decreases rest
    {
      var k :| k in rest;
      r := r[k := layer[k]];
      rest := rest - {k};
    }
    assert r.Keys == (features + layer).Keys;
  }

  /** The two coercion loops. */
  method CoerceFeatures(f: map<string, Value>) returns (r: map<string, Value>)
    ensures r == Coerced(f)
  {
    r := f;
    for i := 0 to |BoolFeatureKeys|
      invariant r.Keys == f.Keys
      invariant forall k :: k in r ==> r[k] == if k in BoolFeatureKeys[..i] then Bool(Truthy(f[k])) else f[k]
    {
      var k := BoolFeatureKeys[i];
      if k in r {
        r := r[k := Bool(Truthy(r[k]))];
      }
    }
    assert BoolFeatureKeys[..|BoolFeatureKeys|] == BoolFeatureKeys;
    for i := 0 to |ListFeatureKeys|
      invariant r.Keys == f.Keys
      invariant forall k :: k in r ==>
          r[k] == (if k in BoolFeatureKeys then Bool(Truthy(f[k]))
                   else if k in ListFeatureKeys[..i] && !f[k].Arr? then Arr([])
                   else f[k])
    {
      var k := ListFeatureKeys[i];
      assert k !in BoolFeatureKeys;
      if k in r && !r[k].Arr? {
        r := r[k := Arr([])];
      }
    }
    assert ListFeatureKeys[..|ListFeatureKeys|] == ListFeatureKeys;
  }

  /** The feature map of the chat route: defaults, request and variant layers, the `reasoning` flag, then coercion. */
  method BuildFeatures(raw: Value, variant: Option<VariantEntry>, reasoning: Value)
    returns (features: map<string, Value>)
    ensures features == MergedFeatures(raw, variant, reasoning)
  {
    features := DefaultRequestFeatures;
    if raw.Obj? {
      features := Overlay(features, raw.fields);
    }
    assert features == DefaultRequestFeatures + RequestLayer(raw);
    if variant.Some? {
      features := Overlay(features, variant.value.features);
    }
    assert features == DefaultRequestFeatures + RequestLayer(raw) + VariantLayer(variant);
    if reasoning.Bool? {
      features := features["enable_thinking" := reasoning];
    }
    features := CoerceFeatures(features);
  }

  /** Every switch is present and boolean, and both flag lists are present
      and lists. */
  lemma FeatureTypes(raw: Value, variant: Option<VariantEntry>, reasoning: Value)
    ensures var m := MergedFeatures(raw, variant, reasoning);
      && (forall k :: k in BoolFeatureKeys ==> k in m && m[k].Bool?)
      && (forall k :: k in ListFeatureKeys ==> k in m && m[k].Arr?)
  {
    var m := MergedFeatures(raw, variant, reasoning);
    assert forall k :: k in BoolFeatureKeys ==> k in DefaultRequestFeatures;
    assert forall k :: k in ListFeatureKeys ==> k in DefaultRequestFeatures && k !in BoolFeatureKeys;
  }

  /** The keys sent are those of the defaults and of both layers. */
  lemma FeatureKeys(raw: Value, variant: Option<VariantEntry>, reasoning: Value)
    ensures MergedFeatures(raw, variant, reasoning).Keys
      == DefaultRequestFeatures.Keys + RequestLayer(raw).Keys + VariantLayer(variant).Keys
  {
    assert "enable_thinking" in DefaultRequestFeatures;
  }

  /** `enable_thinking`: a boolean `reasoning` flag wins, then the variant's
      setting, then the request's, then the default `True`; non-boolean
      settings count by their truth value. */
  lemma ThinkingFlag(raw: Value, variant: Option<VariantEntry>, reasoning: Value)
    ensures var m := MergedFeatures(raw, variant, reasoning);
      var rl := RequestLayer(raw);
      var vl := VariantLayer(variant);
      m["enable_thinking"] == Bool(
        if reasoning.Bool? then reasoning.b
        else if "enable_thinking" in vl then Truthy(vl["enable_thinking"])
        else if "enable_thinking" in rl then Truthy(rl["enable_thinking"])
        else true)
  {
  }

  /** Any other feature is passed through from the variant, or else from the
      request, unchanged. */
  lemma OtherFeatures(raw: Value, variant: Option<VariantEntry>, reasoning: Value, k: string)
    requires k !in BoolFeatureKeys && k !in ListFeatureKeys
    ensures var m := MergedFeatures(raw, variant, reasoning);
      var rl := RequestLayer(raw);
      var vl := VariantLayer(variant);
      && (k in m <==> k in vl || k in rl)
      && (k in m ==> m[k] == if k in vl then vl[k] else rl[k])
  {
  }

  // ---------------------------------------------------------------------------
  // MCP servers

  /** The string items of a list, in order. */
  function Strings(items: seq<Value>): (r: seq<string>)
    ensures forall t :: t in r <==> Str(t) in items
  {
    if items == [] then []
    else
      var init := Strings(items[..|items| - 1]);
      assert items == items[..|items| - 1] + [items[|items| - 1]];
      match items[|items| - 1]
      case Str(t) => init + [t]
      case _ => init
  }

  /** The request's `mcp_servers` strings, when it is a list. */
  function RequestedServers(requested: Value): seq<string> {
    if requested.Arr? then Strings(requested.items) else []
  }

  /** The selected variant's `mcp_servers`. */
  function VariantServers(variant: Option<VariantEntry>): seq<string> {
    if variant.Some? then variant.value.mcpServers else []
  }

  /** Each string of `s` once, at its first occurrence. */
  function Distinct(s: seq<string>): (r: seq<string>)
    ensures NoDup(r)
    ensures forall t :: t in r <==> t in s
  {
    if s == [] then []
    else
      var d := Distinct(s[..|s| - 1]);
      var t := s[|s| - 1];
      assert s == s[..|s| - 1] + [t];
      if t in d then d else d + [t]
  }

  /** Appending one string keeps it only when it is new. */
  lemma DistinctSnoc(s: seq<string>, x: string)
    ensures Distinct(s + [x]) == if x in Distinct(s) then Distinct(s) else Distinct(s) + [x]
  {
    assert (s + [x])[..|s|] == s;
  }

  /** The first loop: the request's string servers, skipping repeats. */
  method CollectRequested(items: seq<Value>) returns (servers: seq<string>)
    ensures servers == Distinct(Strings(items))
  {
    servers := [];
    for i := 0 to |items|
      invariant servers == Distinct(Strings(items[..i]))
    {
      assert items[..i + 1][..i] == items[..i];
      if items[i].Str? {
        DistinctSnoc(Strings(items[..i]), items[i].s);
        if items[i].s !in servers {
          servers := servers + [items[i].s];
        }
      }
    }
    assert items[..|items|] == items;
  }

  /** The second loop: the variant's servers not listed yet. */
  method AppendNew(servers: seq<string>, ghost listed: seq<string>, extra: seq<string>) returns (r: seq<string>)
    requires servers == Distinct(listed)
    ensures r == Distinct(listed + extra)
  {
    r := servers;
    assert listed + extra[..0] == listed;
    for j := 0 to |extra|
      invariant r == Distinct(listed + extra[..j])
    {
      AppendStep(listed, extra, j);
      if extra[j] !in r {
        r := r + [extra[j]];
      }
    }
    assert extra[..|extra|] == extra;
  }

  /** One more of the variant's servers. */
  lemma AppendStep(listed: seq<string>, extra: seq<string>, j: nat)
    requires j < |extra|
    ensures var d := Distinct(listed + extra[..j]);
      Distinct(listed + extra[..j + 1]) == if extra[j] in d then d else d + [extra[j]]
  {
    assert listed + extra[..j + 1] == (listed + extra[..j]) + [extra[j]];
    DistinctSnoc(listed + extra[..j], extra[j]);
  }

  /** The MCP-server merge of the chat route: the request's string servers, then the
      variant's, skipping any already listed. */
  method MergeMcpServers(requested: Value, variant: Option<VariantEntry>) returns (servers: seq<string>)
    ensures servers == Distinct(RequestedServers(requested) + VariantServers(variant))
  {
    servers := [];
    if requested.Arr? {
      servers := CollectRequested(requested.items);
    }
    if variant.Some? {
      servers := AppendNew(servers, RequestedServers(requested), variant.value.mcpServers);
    } else {
      assert RequestedServers(requested) + VariantServers(variant) == RequestedServers(requested);
    }
  }

  /** The servers of a prefix keep their places. */
  lemma {:induction false} DistinctPrefix(a: seq<string>, b: seq<string>)
    ensures |Distinct(a)| <= |Distinct(a + b)|
    ensures Distinct(a + b)[..|Distinct(a)|] == Distinct(a)
    decreases |b|
  {
    if b == [] {
      assert a + b == a;
    } else {
      var b' := b[..|b| - 1];
      assert (a + b)[..|a + b| - 1] == a + b';
      DistinctPrefix(a, b');
    }
  }

  /** A list without repetitions is kept as it is. */
  lemma {:induction false} DistinctOfNoDup(s: seq<string>)
    requires NoDup(s)
    ensures Distinct(s) == s
  {
    if s != [] {
      var p := s[..|s| - 1];
      DistinctOfNoDup(p);
      assert s[|s| - 1] !in p;
      assert s == p + [s[|s| - 1]];
    }
  }

  /** The merged list names every requested and every variant server exactly
      once; the request's servers come first, in their order, and a request
      without repetitions is kept exactly. */
  lemma McpServersSpec(requested: Value, variant: Option<VariantEntry>)
    ensures var m := Distinct(RequestedServers(requested) + VariantServers(variant));
      && NoDup(m)
      && (forall t :: t in m <==> t in RequestedServers(requested) || t in VariantServers(variant))
      && |Distinct(RequestedServers(requested))| <= |m|
      && m[..|Distinct(RequestedServers(requested))|] == Distinct(RequestedServers(requested))
      && (NoDup(RequestedServers(requested)) ==>
            |RequestedServers(requested)| <= |m| && m[..|RequestedServers(requested)|] == RequestedServers(requested))
  {
    var req := RequestedServers(requested);
    DistinctPrefix(req, VariantServers(variant));
    if NoDup(req) {
      DistinctOfNoDup(req);
    }
  }

  // ---------------------------------------------------------------------------
  // Upstream event lines

  /** `b"data: "`. */
  const DataPrefix: seq<bv8> := [0x64, 0x61, 0x74, 0x61, 0x3a, 0x20]

  predicate IsDataLine(line: seq<bv8>) {
    |line| >= 6 && line[..6] == DataPrefix
  }

  /** `utils.response.parse`: the lines that start with `data: ` and whose
      rest `decode` (UTF-8 decoding and `json.loads`) accepts, decoded, in
      order. */
  function Parse(lines: seq<seq<bv8>>, decode: seq<bv8> -> Option<Record>): (r: seq<Record>)
    ensures |r| <= |lines|
    ensures forall rec :: rec in r ==>
      exists i :: 0 <= i < |lines| && IsDataLine(lines[i]) && decode(lines[i][6..]) == Some(rec)
  {
    if lines == [] then []
    else
      var rest := Parse(lines[1..], decode);
      assert forall rec :: rec in rest ==>
        exists i :: 0 <= i < |lines| && IsDataLine(lines[i]) && decode(lines[i][6..]) == Some(rec) by {
        forall rec | rec in rest
          ensures exists i :: 0 <= i < |lines| && IsDataLine(lines[i]) && decode(lines[i][6..]) == Some(rec)
        {
          var i :| 0 <= i < |lines[1..]| && IsDataLine(lines[1..][i]) && decode(lines[1..][i][6..]) == Some(rec);
          assert lines[i + 1] == lines[1..][i];
        }
      }
      if IsDataLine(lines[0]) && decode(lines[0][6..]).Some? then [decode(lines[0][6..]).value] + rest
      else rest
  }

  /** One line gives its record exactly when it is a data line that decodes. */
  lemma ParseOne(line: seq<bv8>, decode: seq<bv8> -> Option<Record>)
    ensures Parse([line], decode) ==
      if IsDataLine(line) && decode(line[6..]).Some? then [decode(line[6..]).value] else []
  {
    assert [line][1..] == [];
  }

  /** Parsing is line by line: the records of consecutive chunks come out in
      the order of their lines. */
  lemma {:induction false} ParseAppend(a: seq<seq<bv8>>, b: seq<seq<bv8>>, decode: seq<bv8> -> Option<Record>)
    ensures Parse(a + b, decode) == Parse(a, decode) + Parse(b, decode)
  {
    if a == [] {
      assert a + b == b;
    } else {
      assert (a + b)[0] == a[0];
      assert (a + b)[1..] == a[1..] + b;
      ParseAppend(a[1..], b, decode);
    }
  }

  /** Every data line that decodes contributes its record, at the place of
      its line among the others. */
  lemma ParseKeeps(a: seq<seq<bv8>>, line: seq<bv8>, b: seq<seq<bv8>>, decode: seq<bv8> -> Option<Record>)
    requires IsDataLine(line) && decode(line[6..]).Some?
    ensures Parse(a + [line] + b, decode) == Parse(a, decode) + [decode(line[6..]).value] + Parse(b, decode)
  {
    ParseAppend(a + [line], b, decode);
    ParseAppend(a, [line], decode);
    ParseOne(line, decode);
  }

  // ---------------------------------------------------------------------------
  // Non-stream aggregation

  /** `data.get("data", {}).get("done")` is true. */
  predicate IsDone(rec: Record) {
    rec.data.Some? && rec.data.value.done == Some(true)
  }

  /** The `content` and `reasoning_content` lists collected so far. */
  datatype Collected = Collected(contents: seq<string>, reasonings: seq<string>)

  /** The final message: each field present exactly when something was
      collected for it, holding the pieces joined. */
  datatype Message = Message(reasoningContent: Option<string>, content: Option<string>)

  /** `"".join(parts)`. */
  function Concat(parts: seq<string>): string {
    if parts == [] then "" else parts[0] + Concat(parts[1..])
  }

  /** The collection loop from `acc` on: every event up to the first `done`
      one goes through `format`; its delta is added to the list named by its
      key. An error in `format` ends the reply. The second component is the
      resulting `phaseBak`. */
  function CollectFrom(mode: Mode, prev: string, records: seq<Record>, acc: Collected): (Result<Collected, FormatError>, string)
    decreases |records|
  {
    if records == [] || IsDone(records[0]) then (Ok(acc), prev)
    else
      var out := FormatSpec(mode, prev, records[0]);
      if out.0.Err? then (Err(out.0.error), out.1)
      else CollectFrom(mode, out.1, records[1..], Absorb(acc, out.0.value))
  }

  /** Adds one `format` result to the list named by its key; no delta adds nothing. */
  function Absorb(acc: Collected, d: Option<Delta>): Collected {
    match d
    case None => acc
    case Some(ReasoningContent(t)) => acc.(reasonings := acc.reasonings + [t])
    case Some(Content(t)) => acc.(contents := acc.contents + [t])
  }

  function FinalMessage(c: Collected): Message {
    Message(
      if c.reasonings != [] then Some(Concat(c.reasonings)) else None,
      if c.contents != [] then Some(Concat(c.contents)) else None)
  }

  /** The reply's message (or the error) and the `phaseBak` left behind. */
  function Aggregated(mode: Mode, prev: string, records: seq<Record>): (Result<Message, FormatError>, string) {
    var out := CollectFrom(mode, prev, records, Collected([], []));
    (if out.0.Ok? then Ok(FinalMessage(out.0.value)) else Err(out.0.error), out.1)
  }

  /** The non-streaming reply of the chat route, with `n` the process-wide normalizer. */
  method Aggregate(n: Normalizer, records: seq<Record>) returns (r: Result<Message, FormatError>)
    modifies n
    ensures (r, n.phaseBak) == Aggregated(n.mode, old(n.phaseBak), records)
  {
    var contents: seq<string> := [];
    var reasonings: seq<string> := [];
    var i := 0;
    while i < |records| && !IsDone(records[i])
      invariant 0 <= i <= |records|
      invariant CollectFrom(n.mode, old(n.phaseBak), records, Collected([], []))
        == CollectFrom(n.mode, n.phaseBak, records[i..], Collected(contents, reasonings))
    {
      assert records[i..][0] == records[i] && records[i..][1..] == records[i + 1..];
      var delta := n.Format(records[i]);
      if delta.Err? {
        return Err(delta.error);
      }
      if delta.value.Some? {
        match delta.value.value {
          case ReasoningContent(t) => reasonings := reasonings + [t];
          case Content(t) => contents := contents + [t];
        }
      }
      i := i + 1;
    }
    r := Ok(FinalMessage(Collected(contents, reasonings)));
  }

  /** Outside `reasoning` mode the reply never carries `reasoning_content`. */
  lemma {:induction false} NoReasoningOutsideReasoningMode(mode: Mode, prev: string, records: seq<Record>, acc: Collected)
    requires mode != Reasoning
    ensures var out := CollectFrom(mode, prev, records, acc);
      out.0.Ok? ==> out.0.value.reasonings == acc.reasonings
    decreases |records|
  {
    if records != [] && !IsDone(records[0]) {
      var out := FormatSpec(mode, prev, records[0]);
      if out.0.Ok? {
        NoReasoningOutsideReasoningMode(mode, out.1, records[1..], Absorb(acc, out.0.value));
      }
    }
  }

  /** The final message of a reply outside `reasoning` mode has no
      `reasoning_content`. */
  lemma PlainReply(mode: Mode, prev: string, records: seq<Record>)
    requires mode != Reasoning
    ensures var out := Aggregated(mode, prev, records);
      out.0.Ok? ==> out.0.value.reasoningContent.None?
  {
    NoReasoningOutsideReasoningMode(mode, prev, records, Collected([], []));
  }

  /** Only `details` mode can fail. */
  lemma {:induction false} FailsOnlyInDetails(mode: Mode, prev: string, records: seq<Record>, acc: Collected)
    requires mode != Details
    ensures CollectFrom(mode, prev, records, acc).0.Ok?
    decreases |records|
  {
    if records != [] && !IsDone(records[0]) {
      var out := FormatSpec(mode, prev, records[0]);
      if out.0.Ok? {
        FailsOnlyInDetails(mode, out.1, records[1..], Absorb(acc, out.0.value));
      }
    }
  }

  /** Nothing after the first `done` event affects the reply. */
  lemma {:induction false} StopsAtDone(mode: Mode, prev: string, records: seq<Record>, i: nat, acc: Collected)
    requires i < |records| && IsDone(records[i])
    ensures CollectFrom(mode, prev, records, acc) == CollectFrom(mode, prev, records[..i], acc)
    decreases i
  {
    if i > 0 && !IsDone(records[0]) {
      assert records[..i][0] == records[0] && records[..i][1..] == records[1..][..i - 1];
      var out := FormatSpec(mode, prev, records[0]);
      if out.0.Ok? {
        StopsAtDone(mode, out.1, records[1..], i - 1, Absorb(acc, out.0.value));
      }
    }
  }

  function Event(phase: string, text: string): Record {
    Record(Some(Payload(Some(phase), Some(text), None, None)))
  }

  const DoneEvent: Record := Record(Some(Payload(None, None, None, Some(true))))

  /** One step of the collection loop on an event that yields a delta. */
  lemma CollectStep(mode: Mode, prev: string, rs: seq<Record>, acc: Collected, d: Delta, next: string)
    requires rs != [] && !IsDone(rs[0])
    requires FormatSpec(mode, prev, rs[0]) == (Ok(Some(d)), next)
    ensures CollectFrom(mode, prev, rs, acc) == CollectFrom(mode, next, rs[1..],
      if d.ReasoningContent? then acc.(reasonings := acc.reasonings + [d.text])
      else acc.(contents := acc.contents + [d.text]))
  {
  }

  lemma PlainEvents(thought: string, answer: string)
    requires thought != "" && '<' !in thought && '\n' !in thought
    requires answer != "" && !Contains(answer, "summary>")
    ensures FormatSpec(Reasoning, "thinking", Event("thinking", thought)) == (Ok(Some(ReasoningContent(thought))), "thinking")
    ensures FormatSpec(Reasoning, "thinking", Event("answer", answer)) == (Ok(Some(Content(answer))), "answer")
  {
    PlainThinking(Reasoning, "thinking", Event("thinking", thought));
  }

  /** A plain thinking event and an answer event without reasoning markup in
      `reasoning` mode become a message with both fields; events after
      `done` are ignored. */
  lemma ReasoningReply(thought: string, answer: string, tail: seq<Record>)
    requires thought != "" && '<' !in thought && '\n' !in thought
    requires answer != "" && !Contains(answer, "summary>")
    ensures Aggregated(Reasoning, "thinking",
      [Event("thinking", thought), Event("answer", answer), DoneEvent] + tail)
      == (Ok(Message(Some(thought), Some(answer))), "answer")
  {
    var rs := [Event("thinking", thought), Event("answer", answer), DoneEvent] + tail;
    PlainEvents(thought, answer);
    assert rs[0] == Event("thinking", thought) && rs[1] == Event("answer", answer);
    assert rs[2] == DoneEvent && IsDone(DoneEvent);
    ReasoningThenAnswer(Reasoning, "thinking", rs, thought, "thinking", answer, "answer");
    ConcatSingle(thought);
    ConcatSingle(answer);
  }

  /** A reasoning delta, then a content delta, then `done`. */
  lemma ReasoningThenAnswer(mode: Mode, prev: string, rs: seq<Record>, t1: string, p1: string, t2: string, p2: string)
    requires |rs| >= 3 && !IsDone(rs[0]) && !IsDone(rs[1]) && IsDone(rs[2])
    requires FormatSpec(mode, prev, rs[0]) == (Ok(Some(ReasoningContent(t1))), p1)
    requires FormatSpec(mode, p1, rs[1]) == (Ok(Some(Content(t2))), p2)
    ensures CollectFrom(mode, prev, rs, Collected([], [])) == (Ok(Collected([t2], [t1])), p2)
  {
    assert [] + [t1] == [t1] && [] + [t2] == [t2];
    CollectStep(mode, prev, rs, Collected([], []), ReasoningContent(t1), p1);
    CollectStep(mode, p1, rs[1..], Collected([], [t1]), Content(t2), p2);
    assert rs[1..][1..][0] == rs[2];
  }

  lemma ConcatSingle(x: string)
    ensures Concat([x]) == x
  {
    assert [x][1..] == [];
  }
}

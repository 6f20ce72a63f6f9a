/**
 * Configuration defaulting (src/config.py): the typed configuration records,
 * `ConfigManager._parse_config`, which fills every missing value with its
 * default and guarantees the four built-in providers, `_create_default_config`,
 * `_default_json_schema`, and the `get_provider_config` lookup.
 */
module Config {
  import opened Wrappers

  /** The JSON values a schema is made of; an object keeps its keys in order. */
  datatype Json =
    | JNull
    | JBool(b: bool)
    | JInt(i: int)
    | JString(s: string)
    | JArray(items: seq<Json>)
    | JObject(members: seq<(string, Json)>)

  /** The value of `key` in an object's members from index `i` on, the first one when repeated. */
  function LookupFrom(members: seq<(string, Json)>, key: string, i: nat): Option<Json>
    decreases |members| - i
  {
    if i >= |members| then None
    else if members[i].0 == key then Some(members[i].1)
    else LookupFrom(members, key, i + 1)
  }

  /** The value reached from `j` by following the object keys `path[i..]`. */
  function AtFrom(j: Json, path: seq<string>, i: nat): Option<Json>
    decreases |path| - i
  {
    if i >= |path| then Some(j)
    else match j
      case JObject(members) =>
        (match LookupFrom(members, path[i], 0)
         case Some(v) => AtFrom(v, path, i + 1)
         case None => None)
      case _ => None
  }

  /** The value reached from `j` by following the object keys in `path` (`j[k1][k2]...`). */
  function At(j: Json, path: seq<string>): Option<Json> {
    AtFrom(j, path, 0)
  }

  // The sections of a loaded YAML document. A field is `None` when its key
  // is missing; a missing section behaves like one whose fields are all missing.

  datatype PathsData = PathsData(
    outputDir: Option<string>, documentedDir: Option<string>, docsDir: Option<string>, manifestFile: Option<string>)

  datatype ProcessingData = ProcessingData(
    exclusions: Option<seq<string>>, filePattern: Option<string>, outputStructure: Option<string>)

  datatype ProviderData = ProviderData(
    model: Option<string>,
    maxTokens: Option<int>,
    parallelWorkers: Option<int>,
    requestsPerMinute: Option<int>,
    requestsPerDay: Option<int>,
    structuredOutput: Option<bool>,
    maxRetries: Option<int>,
    baseRetryDelay: Option<int>)

  datatype AnchorData = AnchorData(lineOffset: Option<int>, lookaheadLines: Option<int>)

  datatype TimeoutsData = TimeoutsData(yardVersionCheck: Option<int>, yardStats: Option<int>, yardDocBuild: Option<int>)

  datatype ValidationData = ValidationData(
    preSaveEnabled: Option<bool>, retryOnFailure: Option<bool>, maxRetries: Option<int>, strictMode: Option<bool>)

  /** A loaded document; `providers` lists the `providers` mapping's items in order. */
  datatype ConfigData = ConfigData(
    paths: PathsData,
    processing: ProcessingData,
    providers: seq<(string, ProviderData)>,
    anchorMatching: AnchorData,
    timeouts: TimeoutsData,
    validation: ValidationData,
    jsonSchema: Option<Json>)

  const NoProviderData: ProviderData := ProviderData(None, None, None, None, None, None, None, None)

  /** The empty document `{}`. */
  const EmptyData: ConfigData := ConfigData(
    PathsData(None, None, None, None),
    ProcessingData(None, None, None),
    [],
    AnchorData(None, None),
    TimeoutsData(None, None, None),
    ValidationData(None, None, None, None),
    None)

  // The typed configuration records (the dataclasses), without the
  // floating-point fields `temperature` and `cost_per_1m_*`.

  datatype PathsConfig = PathsConfig(outputDir: string, documentedDir: string, docsDir: string, manifestFile: string)

  datatype ProcessingConfig = ProcessingConfig(exclusions: seq<string>, filePattern: string, outputStructure: string)

  datatype ProviderConfig = ProviderConfig(
    model: string,
    maxTokens: int,
    parallelWorkers: int,
    requestsPerMinute: int,
    requestsPerDay: Option<int>,
    structuredOutput: bool,
    maxRetries: int,
    baseRetryDelay: int)

  datatype AnchorMatchingConfig = AnchorMatchingConfig(lineOffset: int, lookaheadLines: int)

  datatype TimeoutsConfig = TimeoutsConfig(yardVersionCheck: int, yardStats: int, yardDocBuild: int)

  datatype ValidationConfig = ValidationConfig(preSaveEnabled: bool, retryOnFailure: bool, maxRetries: int, strictMode: bool)

  datatype Config = Config(
    paths: PathsConfig,
    processing: ProcessingConfig,
    providers: map<string, ProviderConfig>,
    anchorMatching: AnchorMatchingConfig,
    timeouts: TimeoutsConfig,
    validation: ValidationConfig,
    jsonSchema: Json)

  // The built-in providers `_parse_config` adds when the document does not name them.

  const OpenAIDefault: ProviderConfig := ProviderConfig("gpt-4o-mini", 16384, 8, 400, None, true, 3, 5)
  const AnthropicDefault: ProviderConfig := ProviderConfig("claude-3-haiku-20240307", 4096, 4, 50, None, true, 3, 5)
  const GeminiDefault: ProviderConfig := ProviderConfig("gemini-2.0-flash-exp", 8192, 1, 8, Some(150), true, 3, 5)
  const MockDefault: ProviderConfig := ProviderConfig("mock-model", 4096, 4, 15, Some(1500), false, 3, 5)

  const BuiltinNames: set<string> := {"openai", "anthropic", "gemini", "mock"}

  function ParsePaths(d: PathsData): PathsConfig {
    PathsConfig(
      d.outputDir.GetOr("output/latest"),
      d.documentedDir.GetOr("documented"),
      d.docsDir.GetOr("docs"),
      d.manifestFile.GetOr("output/latest/manifest.json"))
  }

  function ParseProcessing(d: ProcessingData): ProcessingConfig {
    ProcessingConfig(
      d.exclusions.GetOr(["/critranks/", "/creatures/"]),
      d.filePattern.GetOr("*.rb"),
      d.outputStructure.GetOr("mirror"))
  }

  /** One entry of the `providers` mapping, missing fields defaulted. */
  function ParseProvider(d: ProviderData): ProviderConfig {
    ProviderConfig(
      d.model.GetOr("unknown"),
      d.maxTokens.GetOr(4096),
      d.parallelWorkers.GetOr(1),
      d.requestsPerMinute.GetOr(60),
      d.requestsPerDay,
      d.structuredOutput.GetOr(true),
      d.maxRetries.GetOr(3),
      d.baseRetryDelay.GetOr(5))
  }

  function ParseAnchorMatching(d: AnchorData): AnchorMatchingConfig {
    AnchorMatchingConfig(d.lineOffset.GetOr(5), d.lookaheadLines.GetOr(10))
  }

  function ParseTimeouts(d: TimeoutsData): TimeoutsConfig {
    TimeoutsConfig(d.yardVersionCheck.GetOr(10), d.yardStats.GetOr(30), d.yardDocBuild.GetOr(300))
  }

  function ParseValidation(d: ValidationData): ValidationConfig {
    ValidationConfig(d.preSaveEnabled.GetOr(true), d.retryOnFailure.GetOr(true), d.maxRetries.GetOr(1), d.strictMode.GetOr(false))
  }

  /** The entry a provider's configuration reads back as: every field present. */
  function ProviderDataOf(p: ProviderConfig): ProviderData {
    ProviderData(Some(p.model), Some(p.maxTokens), Some(p.parallelWorkers), Some(p.requestsPerMinute),
      p.requestsPerDay, Some(p.structuredOutput), Some(p.maxRetries), Some(p.baseRetryDelay))
  }

  /** A fully written entry parses to exactly what it says. */
  lemma ParseProviderDataOf(p: ProviderConfig)
    ensures ParseProvider(ProviderDataOf(p)) == p
  {
  }

  /** An empty entry takes every provider default. */
  lemma ParseProviderEmpty()
    ensures ParseProvider(NoProviderData) == ProviderConfig("unknown", 4096, 1, 60, None, true, 3, 5)
  {
  }

  /** The loop over the `providers` items: each name mapped to its parsed entry, a later item winning. */
  function ParsedProviders(items: seq<(string, ProviderData)>): map<string, ProviderConfig> {
    if items == [] then map[]
    else
      var last := items[|items| - 1];
      ParsedProviders(items[..|items| - 1])[last.0 := ParseProvider(last.1)]
  }

  /** The names of the `providers` items. */
  function Names(items: seq<(string, ProviderData)>): set<string> {
    set k | 0 <= k < |items| :: items[k].0
  }

  /** Exactly the named providers are parsed. */
  lemma {:induction false} ParsedProvidersKeys(items: seq<(string, ProviderData)>)
    ensures ParsedProviders(items).Keys == Names(items)
  {
    if items != [] {
      var init := items[..|items| - 1];
      ParsedProvidersKeys(init);
      assert Names(items) == Names(init) + {items[|items| - 1].0} by {
        forall n | n in Names(items)
          ensures n in Names(init) + {items[|items| - 1].0}
        {
          var k :| 0 <= k < |items| && items[k].0 == n;
          if k < |items| - 1 {
            assert init[k] == items[k];
          }
        }
        forall n | n in Names(init)
          ensures n in Names(items)
        {
          var k :| 0 <= k < |init| && init[k].0 == n;
          assert items[k] == init[k];
        }
      }
    }
  }

  /** A provider keeps the entry of the last item that names it. */
  lemma {:induction false} ParsedProvidersLast(items: seq<(string, ProviderData)>, k: nat)
    requires k < |items|
    requires forall j :: k < j < |items| ==> items[j].0 != items[k].0
    ensures items[k].0 in ParsedProviders(items)
    ensures ParsedProviders(items)[items[k].0] == ParseProvider(items[k].1)
  {
    var init := items[..|items| - 1];
    if k < |items| - 1 {
      assert init[k] == items[k];
      assert forall j :: k < j < |init| ==> init[j] == items[j];
      ParsedProvidersLast(init, k);
    }
  }

  /**
   * The four conditional inserts: every built-in provider is present
   * afterwards, and an entry already there is never replaced.
   */
  function WithBuiltins(providers: map<string, ProviderConfig>): (r: map<string, ProviderConfig>)
    ensures r.Keys == providers.Keys + BuiltinNames
    ensures forall name :: name in providers ==> r[name] == providers[name]
    ensures "openai" !in providers ==> r["openai"] == OpenAIDefault
    ensures "anthropic" !in providers ==> r["anthropic"] == AnthropicDefault
    ensures "gemini" !in providers ==> r["gemini"] == GeminiDefault
    ensures "mock" !in providers ==> r["mock"] == MockDefault
  {
    var p1 := if "openai" in providers then providers else providers["openai" := OpenAIDefault];
    var p2 := if "anthropic" in p1 then p1 else p1["anthropic" := AnthropicDefault];
    var p3 := if "gemini" in p2 then p2 else p2["gemini" := GeminiDefault];
    if "mock" in p3 then p3 else p3["mock" := MockDefault]
  }

  /** A schema asking for a value of one JSON type. */
  function TypeSchema(t: string): Json {
    JObject([("type", JString(t))])
  }

  /** The schema of one comment to insert. */
  function CommentSchema(): Json {
    JObject([
      ("type", JString("object")),
      ("properties", JObject([
        ("line_number", TypeSchema("integer")),
        ("anchor", TypeSchema("string")),
        ("indent", TypeSchema("integer")),
        ("comment", TypeSchema("string"))])),
      ("required", JArray([JString("line_number"), JString("anchor"), JString("indent"), JString("comment")]))])
  }

  /** The schema of the reply: an object holding the `comments` array. */
  function ReplySchema(): Json {
    JObject([
      ("type", JString("object")),
      ("properties", JObject([("comments", JObject([("type", JString("array")), ("items", CommentSchema())]))])),
      ("required", JArray([JString("comments")]))])
  }

  /** `_default_json_schema`. */
  function DefaultJsonSchema(): Json {
    JObject([("name", JString("yard_comments")), ("schema", ReplySchema())])
  }

  /** Following a key that an object holds. */
  lemma AtStep(members: seq<(string, Json)>, path: seq<string>, i: nat, v: Json)
    requires i < |path|
    requires LookupFrom(members, path[i], 0) == Some(v)
    ensures AtFrom(JObject(members), path, i) == AtFrom(v, path, i + 1)
  {
  }

  /**
   * The default schema asks for an object with a `comments` array whose
   * items require `line_number`, `anchor`, `indent` and `comment`.
   */
  lemma DefaultJsonSchemaShape()
    ensures At(DefaultJsonSchema(), ["name"]) == Some(JString("yard_comments"))
    ensures At(DefaultJsonSchema(), ["schema", "type"]) == Some(JString("object"))
    ensures At(DefaultJsonSchema(), ["schema", "required"]) == Some(JArray([JString("comments")]))
    ensures At(DefaultJsonSchema(), ["schema", "properties", "comments", "type"]) == Some(JString("array"))
    ensures At(DefaultJsonSchema(), ["schema", "properties", "comments", "items", "required"])
      == Some(JArray([JString("line_number"), JString("anchor"), JString("indent"), JString("comment")]))
  {
    var path := ["schema", "properties", "comments", "items", "required"];
    var reply := ReplySchema();
    var properties := reply.members[1].1;
    var comments := properties.members[0].1;
    var item := CommentSchema();
    AtStep(DefaultJsonSchema().members, path, 0, reply);
    AtStep(reply.members, path, 1, properties);
    AtStep(properties.members, path, 2, comments);
    AtStep(comments.members, path, 3, item);
    AtStep(item.members, path, 4, item.members[2].1);
  }

  /** `_parse_config`, as a value: every section defaulted, built-in providers added. */
  function ConfigOf(data: ConfigData): Config {
    Config(
      ParsePaths(data.paths),
      ParseProcessing(data.processing),
      WithBuiltins(ParsedProviders(data.providers)),
      ParseAnchorMatching(data.anchorMatching),
      ParseTimeouts(data.timeouts),
      ParseValidation(data.validation),
      data.jsonSchema.GetOr(DefaultJsonSchema()))
  }

  /** `_parse_config`: the sections, then the providers loop and the four inserts. */
  method ParseConfig(data: ConfigData) returns (config: Config)
    ensures config == ConfigOf(data)
    ensures BuiltinNames <= config.providers.Keys
  {
    var paths := ParsePaths(data.paths);
    var processing := ParseProcessing(data.processing);
    var providers: map<string, ProviderConfig> := map[];
    var items := data.providers;
    for i := 0 to |items|
      invariant providers == ParsedProviders(items[..i])
    {
      assert items[..i + 1][..i] == items[..i];
      var (name, providerData) := items[i];
      providers := providers[name := ParseProvider(providerData)];
    }
    assert items[..|items|] == items;
    if "openai" !in providers {
      providers := providers["openai" := OpenAIDefault];
    }
    if "anthropic" !in providers {
      providers := providers["anthropic" := AnthropicDefault];
    }
    if "gemini" !in providers {
      providers := providers["gemini" := GeminiDefault];
    }
    if "mock" !in providers {
      providers := providers["mock" := MockDefault];
    }
    var anchorMatching := ParseAnchorMatching(data.anchorMatching);
    var timeouts := ParseTimeouts(data.timeouts);
    var validation := ParseValidation(data.validation);
    var jsonSchema := data.jsonSchema.GetOr(DefaultJsonSchema());
    config := Config(paths, processing, providers, anchorMatching, timeouts, validation, jsonSchema);
  }

  /** `_create_default_config`: the configuration of the empty document. */
  method CreateDefaultConfig() returns (config: Config)
    ensures config == ConfigOf(EmptyData)
    ensures config.paths == PathsConfig("output/latest", "documented", "docs", "output/latest/manifest.json")
    ensures config.processing == ProcessingConfig(["/critranks/", "/creatures/"], "*.rb", "mirror")
    ensures config.providers == map["openai" := OpenAIDefault, "anthropic" := AnthropicDefault,
                                    "gemini" := GeminiDefault, "mock" := MockDefault]
    ensures config.anchorMatching == AnchorMatchingConfig(5, 10)
    ensures config.timeouts == TimeoutsConfig(10, 30, 300)
    ensures config.validation == ValidationConfig(true, true, 1, false)
    ensures config.jsonSchema == DefaultJsonSchema()
  {
    config := ParseConfig(EmptyData);
  }

  /**
   * A provider the document names keeps its own entry, built from that
   * entry's fields and the provider defaults, even when it is a built-in name.
   */
  lemma NamedProviderKept(data: ConfigData, k: nat)
    requires k < |data.providers|
    requires forall j :: k < j < |data.providers| ==> data.providers[j].0 != data.providers[k].0
    ensures data.providers[k].0 in ConfigOf(data).providers
    ensures ConfigOf(data).providers[data.providers[k].0] == ParseProvider(data.providers[k].1)
  {
    ParsedProvidersLast(data.providers, k);
  }

  /**
   * A document that configures `mock` with its own model, token limit and
   * workers gets exactly that entry, defaulted, not the built-in `mock`.
   */
  lemma CustomMockKept(data: ConfigData)
    requires data.providers == [("mock", ProviderData(Some("mock-model"), Some(1024), Some(2), None, None, None, None, None))]
    ensures "mock" in ConfigOf(data).providers
    ensures ConfigOf(data).providers["mock"] == ProviderConfig("mock-model", 1024, 2, 60, None, true, 3, 5)
    ensures ConfigOf(data).providers["mock"] != MockDefault
  {
    NamedProviderKept(data, 0);
  }

  /** The providers of a parsed configuration: the named ones and the built-ins, nothing else. */
  lemma ConfigProviderNames(data: ConfigData)
    ensures ConfigOf(data).providers.Keys == Names(data.providers) + BuiltinNames
  {
    ParsedProvidersKeys(data.providers);
  }

  /** Why `get_provider_config` failed: `KeyError` for the unknown name, listing the names available. */
  datatype ConfigError = UnknownProvider(name: string, available: set<string>)

  /** `get_provider_config` with the configuration passed in. */
  function GetProviderConfig(config: Config, providerName: string): (r: Result<ProviderConfig, ConfigError>)
    ensures r.Ok? <==> providerName in config.providers
    ensures r.Ok? ==> r.value == config.providers[providerName]
    ensures r.Err? ==> r.error == UnknownProvider(providerName, config.providers.Keys)
  {
    if providerName !in config.providers then Err(UnknownProvider(providerName, config.providers.Keys))
    else Ok(config.providers[providerName])
  }

  /** A built-in provider is always found in a parsed configuration. */
  lemma BuiltinProviderFound(data: ConfigData, providerName: string)
    requires providerName in BuiltinNames
    ensures GetProviderConfig(ConfigOf(data), providerName).Ok?
  {
  }

  /** The lookup fails exactly for a name neither in the document nor built in. */
  lemma UnknownProviderFails(data: ConfigData, providerName: string)
    ensures GetProviderConfig(ConfigOf(data), providerName).Err?
      <==> providerName !in Names(data.providers) && providerName !in BuiltinNames
  {
    ConfigProviderNames(data);
  }
}

/**
  The two independent renderers of opencode.json: the app's, straight from the model profile
  (app/orchestrator/opencode_template.py), and the container's, from the environment the app
  encodes the profile into (build_env in app/orchestrator/run_review.py, decoded in
  containers/review-runner/entrypoint.py).  The container substitutes into a text template and
  reads the result back, so its document may be another one, or none.
 */
module Renderers {
  import opened ConfigTemplate
  import opened Decimal
  import opened Json
  import opened JsonText
  import opened JsonDump
  import DeepMerge
  import opened Text
  import opened Wrappers

  /** A model profile with its API key resolved ("" when there is none). */
  datatype Profile = Profile(
    provider: string,
    modelId: string,
    baseUrl: string,
    apiKey: string,
    contextWindow: Option<int>,
    extra: Json)

  const ANTHROPIC_NPM := "@ai-sdk/anthropic"
  const OPENAI_COMPATIBLE_NPM := "@ai-sdk/openai-compatible"
  const DEFAULT_MAX_OUTPUT_TOKENS := 32768

  /** The first non-empty of two strings: Python's `a or b`. */
  function FirstOf(a: string, b: string): string {
    if a != "" then a else b
  }

  function Limit(context: int): Field {
    Field("limit", Obj([Field("context", Int(context)), Field("output", Int(DEFAULT_MAX_OUTPUT_TOKENS))]))
  }

  /** How both renderers name the model. */
  function ModelName(p: Profile): string {
    p.provider + "/" + p.modelId
  }

  // ---------------------------------------------------------------- the app renderer

  function ProviderBlock(p: Profile, llamaUrl: string): Json {
    var anthropic := p.provider == "anthropic";
    var url := if anthropic then [] else [Field("baseURL", Str(FirstOf(p.baseUrl, llamaUrl)))];
    var key := if p.apiKey != "" then [Field("apiKey", Str(p.apiKey))] else [];
    var npm := if anthropic then ANTHROPIC_NPM else OPENAI_COMPATIBLE_NPM;
    var head := [Field("npm", Str(npm)), Field("options", Obj(url + key))];
    if npm != OPENAI_COMPATIBLE_NPM then Obj(head)
    else
      var truthy := p.contextWindow.Some? && p.contextWindow.value != 0;
      var entry := [Field("name", Str(p.modelId))] + (if truthy then [Limit(p.contextWindow.value)] else []);
      Obj(head + [Field("models", Obj([Field(p.modelId, Obj(entry))]))])
  }

  /** The app's document before the extra config. */
  function Plain(p: Profile, llamaUrl: string): Json {
    Document(p.provider, ModelName(p), ProviderBlock(p, llamaUrl))
  }

  function RenderOpencodeJson(p: Profile, llamaUrl: string): Json {
    var config := Plain(p, llamaUrl);
    if p.extra.Obj? && p.extra.fields != [] then DeepMerge.Merge(config, p.extra) else config
  }

  // ---------------------------------------------------------------- the encoder

  type Env = map<string, string>

  function Lookup(env: Env, key: string): string {
    if key in env then env[key] else ""
  }

  /** build_env, the variables the container renderer reads. */
  function BuildEnv(p: Profile, llamaUrl: string): Env {
    var env := map["OPENCODE_PROVIDER" := p.provider, "OPENCODE_MODEL" := p.modelId];
    var env := if p.apiKey != "" then env["OPENCODE_API_KEY" := p.apiKey] else env;
    var env := if p.provider == "local" then env["OPENCODE_BASE_URL" := FirstOf(p.baseUrl, llamaUrl)] else env;
    if p.contextWindow.Some? && p.contextWindow.value != 0
    then env["OPENCODE_MODEL_CONTEXT" := PrintInt(p.contextWindow.value)] else env
  }

  // ---------------------------------------------------------------- the container renderer

  /** The provider block, built as a dict. */
  function BlockInContainer(env: Env): (block: Json)
    ensures Simple(block)
  {
    var provider, modelId := Lookup(env, "OPENCODE_PROVIDER"), Lookup(env, "OPENCODE_MODEL");
    var anthropic := provider == "anthropic";
    var url := if anthropic then [] else [Field("baseURL", Str(Lookup(env, "OPENCODE_BASE_URL")))];
    var apiKey := Lookup(env, "OPENCODE_API_KEY");
    var key := if apiKey != "" then [Field("apiKey", Str(apiKey))] else [];
    var npm := if anthropic then ANTHROPIC_NPM else OPENAI_COMPATIBLE_NPM;
    var head := [Field("npm", Str(npm)), Field("options", Obj(url + key))];
    if npm != OPENAI_COMPATIBLE_NPM then Obj(head)
    else
      var context := Strip(Lookup(env, "OPENCODE_MODEL_CONTEXT"), IsSpace);
      var known := AllDigits(context) && ParseDigits(context) > 0;
      var entry := [Field("name", Str(modelId))] + (if known then [Limit(ParseDigits(context))] else []);
      assert known ==> Simple(Limit(ParseDigits(context)).value);
      assert Simple(Obj(entry));
      assert Simple(Obj([Field(modelId, Obj(entry))]));
      Obj(head + [Field("models", Obj([Field(modelId, Obj(entry))]))])
  }

  /** _render_opencode_config, and what its text reads as; None when it raises. */
  function RenderInContainer(py: Python, env: Env): Option<Json> {
    var provider, modelId := Lookup(env, "OPENCODE_PROVIDER"), Lookup(env, "OPENCODE_MODEL");
    Loads(py, Rendered(provider, provider + "/" + modelId, BlockInContainer(env)))
  }

  // ---------------------------------------------------------------- the context window

  /** What the container makes of the context window. */
  lemma ContextRoundTrip(n: int)
    ensures var s := Strip(PrintInt(n), IsSpace);
            && (AllDigits(s) <==> n >= 0)
            && (n >= 0 ==> ParseDigits(s) == n)
  {
    PrintParse(if n < 0 then -n else n);
    var s := PrintInt(n);
    var digits := PrintNat(if n < 0 then -n else n);
    assert IsDigit(digits[|digits| - 1]) && IsDigit(digits[0]);
    StripIdle(s, IsSpace);
  }

  // ---------------------------------------------------------------- agreement

  /** The non-anthropic provider block, from what either renderer knows. */
  function CompatibleBlock(modelId: string, url: string, apiKey: string, context: Option<int>): Json {
    var key := if apiKey != "" then [Field("apiKey", Str(apiKey))] else [];
    var limit := if context.Some? then [Limit(context.value)] else [];
    Obj([Field("npm", Str(OPENAI_COMPATIBLE_NPM)), Field("options", Obj([Field("baseURL", Str(url))] + key))]
        + [Field("models", Obj([Field(modelId, Obj([Field("name", Str(modelId))] + limit))]))])
  }

  /** The window the app renders, and the one that survives the environment. */
  function AppWindow(p: Profile): Option<int> {
    if p.contextWindow.Some? && p.contextWindow.value != 0 then p.contextWindow else None
  }

  function ContainerWindow(p: Profile): Option<int> {
    if p.contextWindow.Some? && p.contextWindow.value > 0 then p.contextWindow else None
  }

  function AppUrl(p: Profile, llamaUrl: string): string {
    FirstOf(p.baseUrl, llamaUrl)
  }

  function ContainerUrl(p: Profile, llamaUrl: string): string {
    if p.provider == "local" then FirstOf(p.baseUrl, llamaUrl) else ""
  }

  lemma CompatibleBlockIsWellFormed(modelId: string, url: string, apiKey: string, context: Option<int>)
    ensures WellFormed(CompatibleBlock(modelId, url, apiKey, context))
  {
    var limit := if context.Some? then [Limit(context.value)] else [];
    assert context.Some? ==> WellFormed(Limit(context.value).value);
    assert WellFormed(Obj([Field("name", Str(modelId))] + limit));
    assert WellFormed(Obj([Field(modelId, Obj([Field("name", Str(modelId))] + limit))]));
  }

  /** The two blocks of a non-anthropic provider. */
  lemma CompatibleBlocks(p: Profile, llamaUrl: string)
    requires p.provider != "anthropic"
    ensures ProviderBlock(p, llamaUrl) == CompatibleBlock(p.modelId, AppUrl(p, llamaUrl), p.apiKey, AppWindow(p))
    ensures BlockInContainer(BuildEnv(p, llamaUrl))
            == CompatibleBlock(p.modelId, ContainerUrl(p, llamaUrl), p.apiKey, ContainerWindow(p))
  {
    if p.contextWindow.Some? {
      ContextRoundTrip(p.contextWindow.value);
    }
  }

  function AnthropicBlock(apiKey: string): Json {
    var key := if apiKey != "" then [Field("apiKey", Str(apiKey))] else [];
    Obj([Field("npm", Str(ANTHROPIC_NPM)), Field("options", Obj(key))])
  }

  lemma AnthropicBlocks(p: Profile, llamaUrl: string)
    requires p.provider == "anthropic"
    ensures ProviderBlock(p, llamaUrl) == AnthropicBlock(p.apiKey)
    ensures BlockInContainer(BuildEnv(p, llamaUrl)) == AnthropicBlock(p.apiKey)
  {
    var key := if p.apiKey != "" then [Field("apiKey", Str(p.apiKey))] else [];
    assert [] + key == key;
  }

  lemma AnthropicBlockIsWellFormed(apiKey: string)
    ensures WellFormed(AnthropicBlock(apiKey))
  {
  }

  lemma ContainerBlockIsWellFormed(p: Profile, llamaUrl: string)
    ensures WellFormed(BlockInContainer(BuildEnv(p, llamaUrl)))
  {
    if p.provider == "anthropic" {
      AnthropicBlocks(p, llamaUrl);
      AnthropicBlockIsWellFormed(p.apiKey);
    } else {
      CompatibleBlocks(p, llamaUrl);
      CompatibleBlockIsWellFormed(p.modelId, ContainerUrl(p, llamaUrl), p.apiKey, ContainerWindow(p));
    }
  }

  /** The blocks agree when the window and the base URL get through. */
  lemma SameBlocks(p: Profile, llamaUrl: string)
    requires WindowSurvives(p) && UrlSurvives(p, llamaUrl)
    ensures BlockInContainer(BuildEnv(p, llamaUrl)) == ProviderBlock(p, llamaUrl)
  {
    if p.provider == "anthropic" { AnthropicBlocks(p, llamaUrl); } else { CompatibleBlocks(p, llamaUrl); }
  }

  /** What goes over the app's document: nothing, when the extra config is no object. */
  function Extra(p: Profile): Json {
    if p.extra.Obj? then p.extra else Obj([])
  }

  lemma ExtraGoesOver(p: Profile, llamaUrl: string)
    ensures RenderOpencodeJson(p, llamaUrl) == DeepMerge.Merge(Plain(p, llamaUrl), Extra(p))
  {
    DeepMerge.MergeNothing(Plain(p, llamaUrl));
  }

  /** The container reads a document, and it is the app's. */
  predicate RendersAgree(py: Python, p: Profile, llamaUrl: string) {
    RenderInContainer(py, BuildEnv(p, llamaUrl)) == Some(RenderOpencodeJson(p, llamaUrl))
  }

  /** The container never sees a negative window. */
  predicate WindowSurvives(p: Profile) {
    p.provider == "anthropic" || p.contextWindow.None? || p.contextWindow.value >= 0
  }

  /** The container gets no base URL for a provider it does not know; here it needs none. */
  predicate UrlSurvives(p: Profile, llamaUrl: string) {
    p.provider == "anthropic" || ContainerUrl(p, llamaUrl) == AppUrl(p, llamaUrl)
  }

  const MODEL_PATH: seq<string> := ["model"]

  function UrlPath(p: Profile): seq<string> {
    ["provider", p.provider, "options", "baseURL"]
  }

  function LimitPath(p: Profile): seq<string> {
    ["provider", p.provider, "models", p.modelId, "limit"]
  }

  // ---------------------------------------------------------------- where things are

  /** The document of a non-anthropic provider, whatever is known about it. */
  function CompatibleDocument(p: Profile, model: string, url: string, context: Option<int>): Json {
    Document(p.provider, model, CompatibleBlock(p.modelId, url, p.apiKey, context))
  }

  lemma AtKey(v: Json, path: seq<string>, k: nat)
    requires v.Obj? && path != [] && k < |v.fields| && v.fields[k].key == path[0]
    requires forall i :: 0 <= i < k ==> v.fields[i].key != path[0]
    ensures DeepMerge.At(v, path) == DeepMerge.At(v.fields[k].value, path[1..])
    ensures Has(v.fields, path[0]) && Get(v.fields, path[0]) == v.fields[k].value
  {
  }

  lemma ModelAt(provider: string, model: string, model': string, block: Json)
    ensures DeepMerge.At(Document(provider, model, block), MODEL_PATH) == Some(Str(model))
    ensures DeepMerge.SetAt(Document(provider, model, block), MODEL_PATH, Str(model'))
            == Document(provider, model', block)
  {
    AtKey(Document(provider, model, block), MODEL_PATH, 1);
  }

  /** Where the base URL sits. */
  lemma UrlAt(p: Profile, model: string, url: string, context: Option<int>)
    ensures DeepMerge.At(CompatibleDocument(p, model, url, context), UrlPath(p)) == Some(Str(url))
  {
    var d, path := CompatibleDocument(p, model, url, context), UrlPath(p);
    AtKey(d, path, 0);
    AtKey(d.fields[0].value, path[1..], 0);
    AtKey(d.fields[0].value.fields[0].value, path[2..], 1);
    AtKey(d.fields[0].value.fields[0].value.fields[1].value, path[3..], 0);
  }

  lemma UrlReplaced(p: Profile, model: string, url: string, url': string, context: Option<int>)
    ensures DeepMerge.SetAt(CompatibleDocument(p, model, url, context), UrlPath(p), Str(url')) ==
            CompatibleDocument(p, model, url', context)
  {
    var d, d' := CompatibleDocument(p, model, url, context), CompatibleDocument(p, model, url', context);
    var path, x := UrlPath(p), Str(url');
    var block, block' := d.fields[0].value.fields[0].value, d'.fields[0].value.fields[0].value;
    AtKey(block.fields[1].value, path[3..], 0);
    assert DeepMerge.SetAt(block.fields[1].value, path[3..], x) == block'.fields[1].value;
    AtKey(block, path[2..], 1);
    assert DeepMerge.SetAt(block, path[2..], x) == block';
    AtKey(d.fields[0].value, path[1..], 0);
    assert DeepMerge.SetAt(d.fields[0].value, path[1..], x) == d'.fields[0].value;
    AtKey(d, path, 0);
  }

  /** The limit is there exactly when the window is known; everything above it is an object. */
  lemma LimitAt(p: Profile, model: string, url: string, context: Option<int>)
    ensures DeepMerge.At(CompatibleDocument(p, model, url, context), LimitPath(p)) ==
            if context.Some? then Some(Limit(context.value).value) else None
    ensures forall n :: 0 <= n < 5 ==>
              DeepMerge.At(CompatibleDocument(p, model, url, context), LimitPath(p)[..n]).Some?
              && DeepMerge.At(CompatibleDocument(p, model, url, context), LimitPath(p)[..n]).value.Obj?
  {
    var d, path := CompatibleDocument(p, model, url, context), LimitPath(p);
    forall n | 0 <= n < 5 ensures DeepMerge.At(d, path[..n]).Some? && DeepMerge.At(d, path[..n]).value.Obj? {
      LimitPrefix(p, model, url, context, n);
    }
    LimitPrefix(p, model, url, context, 5);
    assert path[..5] == path;
  }

  lemma LimitPrefix(p: Profile, model: string, url: string, context: Option<int>, n: nat)
    requires n <= 5
    ensures var v := DeepMerge.At(CompatibleDocument(p, model, url, context), LimitPath(p)[..n]);
            if n < 5 then v.Some? && v.value.Obj?
            else v == if context.Some? then Some(Limit(context.value).value) else None
  {
    var d, path := CompatibleDocument(p, model, url, context), LimitPath(p)[..n];
    var block := d.fields[0].value.fields[0].value;
    var entry := block.fields[2].value.fields[0].value;
    if n > 0 { AtKey(d, path, 0); }
    if n > 1 { AtKey(d.fields[0].value, path[1..], 0); }
    if n > 2 { AtKey(block, path[2..], 2); }
    if n > 3 { AtKey(block.fields[2].value, path[3..], 0); }
    if n > 4 && context.Some? { AtKey(entry, path[4..], 1); }
  }

  // ---------------------------------------------------------------- what both documents say

  lemma AtMissing(v: Json, path: seq<string>)
    requires v.Obj? && path != [] && forall i :: 0 <= i < |v.fields| ==> v.fields[i].key != path[0]
    ensures DeepMerge.At(v, path) == None
  {
  }

  /** The options of a block: the base URL when there is one, then the key when there is one. */
  lemma OptionsSay(url: Option<string>, apiKey: string)
    ensures var options := Obj((if url.Some? then [Field("baseURL", Str(url.value))] else [])
                               + (if apiKey != "" then [Field("apiKey", Str(apiKey))] else []));
            && DeepMerge.At(options, ["baseURL"]) == (if url.Some? then Some(Str(url.value)) else None)
            && DeepMerge.At(options, ["apiKey"]) == (if apiKey != "" then Some(Str(apiKey)) else None)
  {
    var options := Obj((if url.Some? then [Field("baseURL", Str(url.value))] else [])
                       + (if apiKey != "" then [Field("apiKey", Str(apiKey))] else []));
    if url.Some? { AtKey(options, ["baseURL"], 0); } else { AtMissing(options, ["baseURL"]); }
    if apiKey != "" {
      AtKey(options, ["apiKey"], if url.Some? then 1 else 0);
    } else {
      AtMissing(options, ["apiKey"]);
    }
  }

  /** The declared model: its name, and its window with the room left for the answer. */
  lemma ModelEntrySays(modelId: string, context: Option<int>)
    ensures var limit := if context.Some? then [Limit(context.value)] else [];
            var entry := Obj([Field("name", Str(modelId))] + limit);
            && DeepMerge.At(entry, ["name"]) == Some(Str(modelId))
            && DeepMerge.At(entry, ["limit"]) ==
               (if context.Some? then Some(Obj([Field("context", Int(context.value)), Field("output", Int(32768))]))
                else None)
  {
    var limit := if context.Some? then [Limit(context.value)] else [];
    var entry := Obj([Field("name", Str(modelId))] + limit);
    AtKey(entry, ["name"], 0);
    if context.Some? { AtKey(entry, ["limit"], 1); } else { AtMissing(entry, ["limit"]); }
  }

  lemma CompatibleBlockSays(modelId: string, url: string, apiKey: string, context: Option<int>)
    ensures var block := CompatibleBlock(modelId, url, apiKey, context);
            && DeepMerge.At(block, ["npm"]) == Some(Str("@ai-sdk/openai-compatible"))
            && DeepMerge.At(block, ["options", "baseURL"]) == Some(Str(url))
            && DeepMerge.At(block, ["options", "apiKey"]) == (if apiKey != "" then Some(Str(apiKey)) else None)
            && DeepMerge.At(block, ["models", modelId, "name"]) == Some(Str(modelId))
            && DeepMerge.At(block, ["models", modelId, "limit"]) ==
               (if context.Some? then Some(Obj([Field("context", Int(context.value)), Field("output", Int(32768))]))
                else None)
  {
    var block := CompatibleBlock(modelId, url, apiKey, context);
    AtKey(block, ["npm"], 0);
    OptionsSay(Some(url), apiKey);
    AtKey(block, ["options", "baseURL"], 1);
    AtKey(block, ["options", "apiKey"], 1);
    ModelEntrySays(modelId, context);
    AtKey(block, ["models", modelId, "name"], 2);
    AtKey(block, ["models", modelId, "limit"], 2);
    AtKey(block.fields[2].value, ["models", modelId, "name"][1..], 0);
    AtKey(block.fields[2].value, ["models", modelId, "limit"][1..], 0);
  }

  lemma AnthropicBlockSays(apiKey: string)
    ensures var block := AnthropicBlock(apiKey);
            && DeepMerge.At(block, ["npm"]) == Some(Str("@ai-sdk/anthropic"))
            && DeepMerge.At(block, ["options", "baseURL"]) == None
            && DeepMerge.At(block, ["options", "apiKey"]) == (if apiKey != "" then Some(Str(apiKey)) else None)
            && DeepMerge.At(block, ["models"]) == None
  {
    var block := AnthropicBlock(apiKey);
    AtKey(block, ["npm"], 0);
    OptionsSay(None, apiKey);
    AtKey(block, ["options", "baseURL"], 1);
    AtKey(block, ["options", "apiKey"], 1);
    AtMissing(block, ["models"]);
    var key := if apiKey != "" then [Field("apiKey", Str(apiKey))] else [];
    assert [] + key == key;
  }

  /** The provider block in its place. */
  lemma BlockAt(provider: string, model: string, block: Json, path: seq<string>)
    ensures DeepMerge.At(Document(provider, model, block), ["provider", provider] + path) == DeepMerge.At(block, path)
  {
    var d, full := Document(provider, model, block), ["provider", provider] + path;
    AtKey(d, full, 0);
    AtKey(d.fields[0].value, full[1..], 0);
    assert full[1..][1..] == path;
  }

  /** Three top-level entries: the block, the model as provider/id, and four permissions. */
  lemma DocumentSays(p: Profile, llamaUrl: string)
    ensures Plain(p, llamaUrl) == Obj([
              Field("provider", Obj([Field(p.provider, ProviderBlock(p, llamaUrl))])),
              Field("model", Str(p.provider + "/" + p.modelId)),
              Field("permission", Obj([
                Field("bash", Str("allow")), Field("edit", Str("allow")),
                Field("webfetch", Str("allow")), Field("external_directory", Str("allow"))]))])
  {
    assert PERMISSIONS.fields == [
      Field("bash", Str("allow")), Field("edit", Str("allow")),
      Field("webfetch", Str("allow")), Field("external_directory", Str("allow"))];
  }

  /**
    The app's document before the extra config, from the profile alone, for a provider other
    than anthropic: the profile's own base URL, and only without one the llama URL.
   */
  lemma AppSays(p: Profile, llamaUrl: string)
    requires p.provider != "anthropic"
    ensures var doc, at := Plain(p, llamaUrl), ["provider", p.provider];
            && DeepMerge.At(doc, at + ["npm"]) == Some(Str("@ai-sdk/openai-compatible"))
            && DeepMerge.At(doc, at + ["options", "baseURL"])
               == Some(Str(if p.baseUrl != "" then p.baseUrl else llamaUrl))
            && DeepMerge.At(doc, at + ["options", "apiKey"]) == (if p.apiKey != "" then Some(Str(p.apiKey)) else None)
            && DeepMerge.At(doc, at + ["models", p.modelId, "name"]) == Some(Str(p.modelId))
            && DeepMerge.At(doc, at + ["models", p.modelId, "limit"]) ==
               if p.contextWindow.None? || p.contextWindow.value == 0 then None
               else Some(Obj([Field("context", Int(p.contextWindow.value)), Field("output", Int(32768))]))
  {
    CompatibleBlocks(p, llamaUrl);
    var url := AppUrl(p, llamaUrl);
    CompatibleBlockSays(p.modelId, url, p.apiKey, AppWindow(p));
    var block := ProviderBlock(p, llamaUrl);
    BlockAt(p.provider, ModelName(p), block, ["npm"]);
    BlockAt(p.provider, ModelName(p), block, ["options", "baseURL"]);
    BlockAt(p.provider, ModelName(p), block, ["options", "apiKey"]);
    BlockAt(p.provider, ModelName(p), block, ["models", p.modelId, "name"]);
    BlockAt(p.provider, ModelName(p), block, ["models", p.modelId, "limit"]);
  }

  /** For anthropic: no base URL and no models. */
  lemma AppSaysAnthropic(p: Profile, llamaUrl: string)
    requires p.provider == "anthropic"
    ensures var doc, at := Plain(p, llamaUrl), ["provider", "anthropic"];
            && DeepMerge.At(doc, at + ["npm"]) == Some(Str("@ai-sdk/anthropic"))
            && DeepMerge.At(doc, at + ["options", "baseURL"]) == None
            && DeepMerge.At(doc, at + ["options", "apiKey"]) == (if p.apiKey != "" then Some(Str(p.apiKey)) else None)
            && DeepMerge.At(doc, at + ["models"]) == None
  {
    AnthropicBlocks(p, llamaUrl);
    AnthropicBlockSays(p.apiKey);
    var block := ProviderBlock(p, llamaUrl);
    BlockAt(p.provider, ModelName(p), block, ["npm"]);
    BlockAt(p.provider, ModelName(p), block, ["options", "baseURL"]);
    BlockAt(p.provider, ModelName(p), block, ["options", "apiKey"]);
    BlockAt(p.provider, ModelName(p), block, ["models"]);
  }

  /** The environment, variable by variable, from the profile alone. */
  lemma EnvSays(p: Profile, llamaUrl: string)
    ensures var env := BuildEnv(p, llamaUrl);
            && "OPENCODE_PROVIDER" in env && env["OPENCODE_PROVIDER"] == p.provider
            && "OPENCODE_MODEL" in env && env["OPENCODE_MODEL"] == p.modelId
            && ("OPENCODE_API_KEY" in env <==> p.apiKey != "")
            && (p.apiKey != "" ==> env["OPENCODE_API_KEY"] == p.apiKey)
            && ("OPENCODE_BASE_URL" in env <==> p.provider == "local")
            && (p.provider == "local" ==>
                  env["OPENCODE_BASE_URL"] == if p.baseUrl != "" then p.baseUrl else llamaUrl)
            && ("OPENCODE_MODEL_CONTEXT" in env <==> p.contextWindow.Some? && p.contextWindow.value != 0)
            && (p.contextWindow.Some? && p.contextWindow.value > 0 ==>
                  AllDigits(env["OPENCODE_MODEL_CONTEXT"])
                  && ParseDigits(env["OPENCODE_MODEL_CONTEXT"]) == p.contextWindow.value)
  {
    if p.contextWindow.Some? && p.contextWindow.value > 0 { PrintParse(p.contextWindow.value); }
  }

  /** The block the container builds from it: the same, but without a URL it was not sent, or a negative window. */
  lemma ContainerSays(p: Profile, llamaUrl: string)
    requires p.provider != "anthropic"
    ensures var block := BlockInContainer(BuildEnv(p, llamaUrl));
            && DeepMerge.At(block, ["npm"]) == Some(Str("@ai-sdk/openai-compatible"))
            && DeepMerge.At(block, ["options", "baseURL"])
               == Some(Str(if p.provider != "local" then "" else if p.baseUrl != "" then p.baseUrl else llamaUrl))
            && DeepMerge.At(block, ["options", "apiKey"]) == (if p.apiKey != "" then Some(Str(p.apiKey)) else None)
            && DeepMerge.At(block, ["models", p.modelId, "name"]) == Some(Str(p.modelId))
            && DeepMerge.At(block, ["models", p.modelId, "limit"]) ==
               if p.contextWindow.None? || p.contextWindow.value <= 0 then None
               else Some(Obj([Field("context", Int(p.contextWindow.value)), Field("output", Int(32768))]))
  {
    CompatibleBlocks(p, llamaUrl);
    CompatibleBlockSays(p.modelId, ContainerUrl(p, llamaUrl), p.apiKey, ContainerWindow(p));
  }

  // ---------------------------------------------------------------- the exact condition

  /** The value the extra config gives a path is this plain text. */
  predicate ExtraSays(p: Profile, path: seq<string>, text: string) {
    DeepMerge.At(Extra(p), path) == Some(Str(text))
  }

  /** The extra config, which build_env does not ship, says nothing new to the container. */
  ghost predicate ExtraIsRedundant(py: Python, p: Profile, llamaUrl: string) {
    var box := RenderInContainer(py, BuildEnv(p, llamaUrl));
    box.Some? && DeepMerge.AlreadyIn(box.value, Extra(p))
  }

  /** What the container renders when the model slot closes. */
  function BoxDocument(p: Profile, llamaUrl: string, model: string): Json {
    Document(p.provider, model, BlockInContainer(BuildEnv(p, llamaUrl)))
  }

  lemma ContainerText(py: Python, p: Profile, llamaUrl: string)
    ensures RenderInContainer(py, BuildEnv(p, llamaUrl))
            == Loads(py, Rendered(p.provider, ModelName(p), BlockInContainer(BuildEnv(p, llamaUrl))))
  {
    var env := BuildEnv(p, llamaUrl);
    assert Lookup(env, "OPENCODE_PROVIDER") == p.provider && Lookup(env, "OPENCODE_MODEL") == p.modelId;
  }

  lemma ClosedSlot(py: Python, p: Profile, llamaUrl: string)
    requires JsonPlain(p.provider) && SlotCloses(py, ModelName(p))
    ensures RenderInContainer(py, BuildEnv(p, llamaUrl))
            == Some(BoxDocument(p, llamaUrl, SlotRead(py, ModelName(p)).value))
  {
    ContainerText(py, p, llamaUrl);
    ContainerBlockIsWellFormed(p, llamaUrl);
    ClosedSlotRenders(py, p.provider, ModelName(p), BlockInContainer(BuildEnv(p, llamaUrl)));
  }

  /** The model as one plain value the two documents may differ in. */
  lemma ModelDifference(p: Profile, model: string, block: Json, c: Json)
    requires WellFormed(p.extra) && DeepMerge.At(c, MODEL_PATH) == Some(Str(model))
    ensures DeepMerge.Merge(Document(p.provider, ModelName(p), block), Extra(p)) == c <==>
            && (model == ModelName(p) || ExtraSays(p, MODEL_PATH, model))
            && DeepMerge.Merge(Document(p.provider, model, block), Extra(p)) == c
  {
    ModelAt(p.provider, model, ModelName(p), block);
    if model != ModelName(p) {
      DeepMerge.PlainDifference(Document(p.provider, model, block), Extra(p), c, MODEL_PATH, Str(ModelName(p)));
    }
  }

  /** The base URL as another one. */
  lemma UrlDifference(p: Profile, model: string, url: string, url': string, context: Option<int>, c: Json)
    requires WellFormed(p.extra) && DeepMerge.At(c, UrlPath(p)) == Some(Str(url))
    ensures DeepMerge.Merge(CompatibleDocument(p, model, url', context), Extra(p)) == c <==>
            && (url == url' || ExtraSays(p, UrlPath(p), url))
            && DeepMerge.Merge(CompatibleDocument(p, model, url, context), Extra(p)) == c
  {
    UrlAt(p, model, url, context);
    UrlReplaced(p, model, url, url', context);
    if url != url' {
      DeepMerge.PlainDifference(CompatibleDocument(p, model, url, context), Extra(p), c, UrlPath(p), Str(url'));
    }
  }

  /** No extra config takes the limit away and leaves what is around it. */
  lemma LostWindowIsLost(p: Profile, llamaUrl: string, model: string)
    requires WellFormed(p.extra) && !WindowSurvives(p)
    ensures BoxDocument(p, llamaUrl, model) != RenderOpencodeJson(p, llamaUrl)
  {
    CompatibleBlocks(p, llamaUrl);
    ExtraGoesOver(p, llamaUrl);
    var app, box := Plain(p, llamaUrl), BoxDocument(p, llamaUrl, model);
    LimitAt(p, ModelName(p), AppUrl(p, llamaUrl), AppWindow(p));
    LimitAt(p, model, ContainerUrl(p, llamaUrl), ContainerWindow(p));
    if DeepMerge.Merge(app, Extra(p)) == box {
      var n := DeepMerge.LostBelowNonObject(app, Extra(p), LimitPath(p));
      assert false;
    }
  }

  /** The app's block over the container's: with the window known to both, only the URL can differ. */
  lemma BlockDifference(p: Profile, llamaUrl: string, model: string)
    requires WellFormed(p.extra) && WindowSurvives(p)
    ensures var box := BoxDocument(p, llamaUrl, model);
            DeepMerge.Merge(Document(p.provider, model, ProviderBlock(p, llamaUrl)), Extra(p)) == box <==>
            && (UrlSurvives(p, llamaUrl) || ExtraSays(p, UrlPath(p), ContainerUrl(p, llamaUrl)))
            && DeepMerge.Merge(box, Extra(p)) == box
  {
    if p.provider == "anthropic" {
      AnthropicBlocks(p, llamaUrl);
    } else {
      CompatibleBlocks(p, llamaUrl);
      UrlAt(p, model, ContainerUrl(p, llamaUrl), ContainerWindow(p));
      UrlDifference(
        p, model, ContainerUrl(p, llamaUrl), AppUrl(p, llamaUrl), AppWindow(p), BoxDocument(p, llamaUrl, model));
    }
  }

  /** With the window known to both, the two documents can differ in the model and the URL only. */
  lemma SlotAndUrlDifference(p: Profile, llamaUrl: string, model: string)
    requires WellFormed(p.extra) && WindowSurvives(p)
    ensures var box := BoxDocument(p, llamaUrl, model);
            RenderOpencodeJson(p, llamaUrl) == box <==>
            && (model == ModelName(p) || ExtraSays(p, MODEL_PATH, model))
            && (UrlSurvives(p, llamaUrl) || ExtraSays(p, UrlPath(p), ContainerUrl(p, llamaUrl)))
            && DeepMerge.AlreadyIn(box, Extra(p))
  {
    var box := BoxDocument(p, llamaUrl, model);
    ExtraGoesOver(p, llamaUrl);
    DeepMerge.AbsorbedIffAlreadyIn(box, Extra(p));
    ModelAt(p.provider, model, model, BlockInContainer(BuildEnv(p, llamaUrl)));
    ModelDifference(p, model, ProviderBlock(p, llamaUrl), box);
    BlockDifference(p, llamaUrl, model);
  }

  /** Unless the extra config names the model, the app does. */
  lemma AppNamesModel(p: Profile, llamaUrl: string)
    requires WellFormed(p.extra) && DeepMerge.At(Extra(p), MODEL_PATH).None?
    ensures DeepMerge.At(RenderOpencodeJson(p, llamaUrl), MODEL_PATH) == Some(Str(ModelName(p)))
  {
    ExtraGoesOver(p, llamaUrl);
    ModelAt(p.provider, ModelName(p), ModelName(p), ProviderBlock(p, llamaUrl));
    DeepMerge.PathLaw(Plain(p, llamaUrl), Extra(p), MODEL_PATH);
  }

  lemma ModelIsTopLevel(v: Json)
    ensures DeepMerge.At(v, MODEL_PATH).Some? ==>
              v.Obj? && Has(v.fields, "model") && DeepMerge.At(v, MODEL_PATH) == Some(Get(v.fields, "model"))
  {
  }

  /** A slot that is not plain can only agree when the extra config names the model. */
  lemma TornSlotDisagrees(py: Python, p: Profile, llamaUrl: string)
    requires JsonPlain(p.provider) && WellFormed(p.extra) && !JsonPlain(ModelName(p))
    requires DeepMerge.At(Extra(p), MODEL_PATH).None?
    ensures !RendersAgree(py, p, llamaUrl)
  {
    var block := BlockInContainer(BuildEnv(p, llamaUrl));
    var app := RenderOpencodeJson(p, llamaUrl);
    ContainerText(py, p, llamaUrl);
    ContainerBlockIsWellFormed(p, llamaUrl);
    TornSlotNeverRenders(py, p.provider, ModelName(p), block);
    AppNamesModel(p, llamaUrl);
    ModelIsTopLevel(app);
    assert Loads(py, Rendered(p.provider, ModelName(p), block)) != Some(app);
  }

  /** With a slot that closes, the model it reads as, the window, the URL and the extra config decide. */
  lemma ClosedSlotAgrees(py: Python, p: Profile, llamaUrl: string)
    requires JsonPlain(p.provider) && WellFormed(p.extra) && SlotCloses(py, ModelName(p))
    ensures RendersAgree(py, p, llamaUrl) <==>
            var model := SlotRead(py, ModelName(p)).value;
            && (model == ModelName(p) || ExtraSays(p, MODEL_PATH, model))
            && WindowSurvives(p)
            && (UrlSurvives(p, llamaUrl) || ExtraSays(p, UrlPath(p), ""))
            && ExtraIsRedundant(py, p, llamaUrl)
  {
    var model := SlotRead(py, ModelName(p)).value;
    ClosedSlot(py, p, llamaUrl);
    if WindowSurvives(p) {
      SlotAndUrlDifference(p, llamaUrl, model);
    } else {
      LostWindowIsLost(p, llamaUrl, model);
    }
  }

  /**
    Renderer agreement, exactly.  The model slot reads as the model, or as what the extra config
    names it; the window is not negative; the base URL reaches the container, or the extra config
    empties it; and the container's document already holds every value the extra config reaches.
   */
  lemma RenderersAgree(py: Python, p: Profile, llamaUrl: string)
    requires JsonPlain(p.provider) && WellFormed(p.extra)
    requires SlotCloses(py, ModelName(p)) || DeepMerge.At(Extra(p), MODEL_PATH).None?
    ensures RendersAgree(py, p, llamaUrl) <==>
            && SlotCloses(py, ModelName(p))
            && (JsonPlain(p.modelId) || ExtraSays(p, MODEL_PATH, SlotRead(py, ModelName(p)).value))
            && WindowSurvives(p)
            && (UrlSurvives(p, llamaUrl) || ExtraSays(p, UrlPath(p), ""))
            && ExtraIsRedundant(py, p, llamaUrl)
  {
    PlainModelName(p);
    AfterModelIsPlainLine();
    SlotReadsBackIffPlain(py, ModelName(p), AFTER_MODEL);
    if SlotCloses(py, ModelName(p)) {
      ClosedSlotAgrees(py, p, llamaUrl);
    } else {
      if JsonPlain(ModelName(p)) { PlainSlotCloses(py, ModelName(p)); }
      TornSlotDisagrees(py, p, llamaUrl);
    }
  }

  lemma PlainModelName(p: Profile)
    requires JsonPlain(p.provider)
    ensures JsonPlain(ModelName(p)) <==> JsonPlain(p.modelId)
  {
    var n := |p.provider| + 1;
    assert forall i :: 0 <= i < |p.modelId| ==> ModelName(p)[n + i] == p.modelId[i];
  }

  // ---------------------------------------------------------------- profiles from the form

  /** What the profile form lets through. */
  predicate FormValid(p: Profile) {
    && (p.provider == "anthropic" || p.provider == "local")
    && p.modelId != ""
    && (p.contextWindow.Some? ==> p.contextWindow.value >= 1)
    && p.extra.Obj?
  }

  /**
    For a profile from the form: the renderers agree if and only if the model id is plain and the
    extra config says nothing new.  (An id that is not plain must not also be overridden by the
    extra config; RenderersAgree says more about that.)
   */
  lemma FormProfilesAgreeIff(py: Python, p: Profile, llamaUrl: string)
    requires FormValid(p) && WellFormed(p.extra)
    requires JsonPlain(p.modelId) || DeepMerge.At(p.extra, MODEL_PATH).None?
    ensures RendersAgree(py, p, llamaUrl) <==> JsonPlain(p.modelId) && DeepMerge.AlreadyIn(Plain(p, llamaUrl), p.extra)
    ensures p.extra == Obj([]) ==> (RendersAgree(py, p, llamaUrl) <==> JsonPlain(p.modelId))
  {
    if JsonPlain(p.modelId) {
      PlainIdRenders(py, p, llamaUrl);
      PlainModelName(p);
      PlainSlotCloses(py, ModelName(p));
    }
    RenderersAgree(py, p, llamaUrl);
  }

  /** The good case: the container renders the app's document before the extra config. */
  lemma PlainIdRenders(py: Python, p: Profile, llamaUrl: string)
    requires JsonPlain(p.provider) && JsonPlain(p.modelId) && WindowSurvives(p) && UrlSurvives(p, llamaUrl)
    ensures RenderInContainer(py, BuildEnv(p, llamaUrl)) == Some(Plain(p, llamaUrl))
  {
    PlainModelName(p);
    PlainSlotCloses(py, ModelName(p));
    ClosedSlot(py, p, llamaUrl);
    SameBlocks(p, llamaUrl);
  }

  /** A bare quote in the model id, with more text right after it: the container raises. */
  lemma QuotedIdRaises(py: Python, p: Profile, llamaUrl: string, x: string, y: string)
    requires JsonPlain(p.provider) && JsonPlain(x) && p.modelId == x + ("\"" + y)
    requires y != "" && !IsSpace(y[0]) && y[0] != ',' && y[0] != '}'
    ensures RenderInContainer(py, BuildEnv(p, llamaUrl)) == None
  {
    ContainerBlockIsWellFormed(p, llamaUrl);
    var block := BlockInContainer(BuildEnv(p, llamaUrl));
    NameSplits(p, x, "\"", y);
    QuoteRaises(py, p.provider, p.provider + "/" + x, y, block);
    ContainerText(py, p, llamaUrl);
  }

  /** A backslash in the model id before a letter that is no escape, as in C:\models: the container raises. */
  lemma BackslashedIdRaises(py: Python, p: Profile, llamaUrl: string, x: string, y: string)
    requires JsonPlain(p.provider) && JsonPlain(x) && p.modelId == x + ("\\" + y)
    requires y != "" && y[0] !in "\"\\/bfnrtu"
    ensures RenderInContainer(py, BuildEnv(p, llamaUrl)) == None
  {
    ContainerBlockIsWellFormed(p, llamaUrl);
    var block := BlockInContainer(BuildEnv(p, llamaUrl));
    NameSplits(p, x, "\\", y);
    BackslashRaises(py, p.provider, p.provider + "/" + x, y, block);
    ContainerText(py, p, llamaUrl);
  }

  lemma NameSplits(p: Profile, x: string, c: string, y: string)
    requires p.modelId == x + (c + y)
    ensures ModelName(p) == p.provider + "/" + x + (c + y)
  {
  }

  /** A valid local profile the container cannot render, while the app can. */
  lemma QuotedIdIsLost(py: Python, p: Profile, llamaUrl: string)
    requires FormValid(p) && p.modelId == "a" + ("\"" + "b")
    ensures RenderInContainer(py, BuildEnv(p, llamaUrl)) == None && !RendersAgree(py, p, llamaUrl)
  {
    QuotedIdRaises(py, p, llamaUrl, "a", "b");
  }

  // ---------------------------------------------------------------- the extra config is lost

  lemma OtherKeyIsNew(p: Profile, llamaUrl: string, key: string)
    requires p.extra.Obj? && Has(p.extra.fields, key)
    requires key != "provider" && key != "model" && key != "permission"
    ensures !DeepMerge.AlreadyIn(Plain(p, llamaUrl), p.extra)
  {
    var doc := Plain(p, llamaUrl);
    DeepMerge.AtBelow(p.extra, key, []);
    assert IndexOf(doc.fields, key).None?;
    assert !DeepMerge.AlreadyAt(doc, p.extra, [key] + []);
  }

  /** Any key besides the three the app renders itself never reaches the container. */
  lemma OtherKeysAreLost(py: Python, p: Profile, llamaUrl: string, key: string)
    requires FormValid(p) && WellFormed(p.extra) && Has(p.extra.fields, key)
    requires key != "provider" && key != "model" && key != "permission"
    requires JsonPlain(p.modelId) || DeepMerge.At(p.extra, MODEL_PATH).None?
    ensures !RendersAgree(py, p, llamaUrl)
  {
    OtherKeyIsNew(p, llamaUrl, key);
    FormProfilesAgreeIff(py, p, llamaUrl);
  }

  /** For example, every valid profile that switches sharing off. */
  lemma SharingSettingIsLost(py: Python, p: Profile, llamaUrl: string)
    requires FormValid(p) && p.extra == Obj([Field("share", Str("disabled"))])
    ensures !RendersAgree(py, p, llamaUrl)
  {
    assert p.extra.fields[0] == Field("share", Str("disabled"));
    IndexOfDistinct(p.extra.fields, 0);
    assert IndexOf(p.extra.fields, "model").None?;
    OtherKeysAreLost(py, p, llamaUrl, "share");
  }

  /**
    The app merges the extra config over the document the container renders; the container
    renders the same whatever the extra config is.
   */
  lemma ExtraConfigIsMergedOver(py: Python, p: Profile, llamaUrl: string, other: Json)
    requires JsonPlain(p.provider) && JsonPlain(p.modelId) && WindowSurvives(p) && UrlSurvives(p, llamaUrl)
    ensures var box := RenderInContainer(py, BuildEnv(p, llamaUrl));
            box.Some? && RenderOpencodeJson(p, llamaUrl) == DeepMerge.Merge(box.value, Extra(p))
    ensures BuildEnv(p.(extra := other), llamaUrl) == BuildEnv(p, llamaUrl)
  {
    PlainIdRenders(py, p, llamaUrl);
    ExtraGoesOver(p, llamaUrl);
    EnvIgnoresExtra(p, llamaUrl, other);
  }

  lemma EnvIgnoresExtra(p: Profile, llamaUrl: string, other: Json)
    ensures BuildEnv(p.(extra := other), llamaUrl) == BuildEnv(p, llamaUrl)
  {
  }
}

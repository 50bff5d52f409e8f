/** API-key validation done when the tools configuration is loaded
    (`LoadToolsConfig.__init__` in configs/load_tools_config.py).

    The environment is a map from variable name to value; an unset variable
    is absent from the map. Python's `os.getenv` gives `None` for an unset
    variable and both `None` and `""` are falsy, so a key counts as present
    only when it is set to a non-empty value. Reading the YAML file, loading
    `.env` and exporting the LangSmith variables back into the environment
    are outside this model.
 */
module ToolsConfig {
  import opened Outcomes
  import opened Text
  import opened Seqs

  type Env = map<string, string>

  const OpenAIKey: string := "OPENAI_API_KEY"
  const GroqKey: string := "GROQ_API_KEY"
  const TavilyKey: string := "TAVILY_API_KEY"
  const PineconeKey: string := "PINECONE_API_KEY"
  const GoogleKey: string := "GOOGLE_API_KEY"
  const LangchainKey: string := "LANGCHAIN_API_KEY"
  const HuggingfaceKey: string := "HUGGINGFACEHUB_API_TOKEN"
  const ProjectVar: string := "LANGCHAIN_PROJECT"
  const TracingVar: string := "LANGCHAIN_TRACING_V2"

  /** The keys whose absence stops the configuration from loading, in the
      order they are checked. */
  const RequiredKeys: seq<string> := [OpenAIKey, GroqKey, TavilyKey, PineconeKey]

  const MissingKeysPrefix: string := "Missing required API keys in .env: "
  const ProjectUnsetMessage: string := "LANGCHAIN_PROJECT is not set in .env for LangSmith tracing."
  const LangchainKeyUnsetMessage: string := "LANGCHAIN_API_KEY is not set in .env for LangSmith tracing."

  /** `os.getenv(k)` is truthy. */
  predicate IsSet(env: Env, k: string) {
    k in env && env[k] != ""
  }

  function GetEnv(env: Env, k: string): Option<string> {
    if k in env then Some(env[k]) else None
  }

  /** Tracing is switched on only by the exact value "true". */
  predicate TracingOn(env: Env) {
    GetEnv(env, TracingVar) == Some("true")
  }

  /** The configuration values this model keeps from a successful load. */
  datatype Keys = Keys(
    openai: string, groq: string, tavily: string, pinecone: string,
    google: Option<string>, langchain: Option<string>, huggingface: Option<string>,
    project: string)

  /** `[k]` when `k` is unset, else nothing: one `if not ...: append` check. */
  function UnsetOne(env: Env, k: string): seq<string> {
    if !IsSet(env, k) then [k] else []
  }

  /** The missing-key list, built by the four checks in their fixed order. */
  function MissingKeys(env: Env): seq<string> {
    UnsetOne(env, OpenAIKey)
      + (UnsetOne(env, GroqKey) + (UnsetOne(env, TavilyKey) + UnsetOne(env, PineconeKey)))
  }

  /** Reference definition: the unset keys among `keys`, in order. */
  function UnsetAmong(keys: seq<string>, env: Env): (r: seq<string>)
    ensures forall k :: k in r <==> k in keys && !IsSet(env, k)
  {
    UnsetAmongMember(keys, env);
    FlatMap(keys, UnsetCheck(env))
  }

  /** The check `UnsetOne` as a function of the key alone. */
  function UnsetCheck(env: Env): string -> seq<string> {
    k => UnsetOne(env, k)
  }

  lemma UnsetAmongMember(keys: seq<string>, env: Env)
    ensures forall k :: k in FlatMap(keys, UnsetCheck(env)) <==> k in keys && !IsSet(env, k)
  {
    forall k ensures k in FlatMap(keys, UnsetCheck(env)) <==> k in keys && !IsSet(env, k) {
      FlatMapMember(keys, UnsetCheck(env), k);
    }
  }

  /** The constructor's validation: succeeds with the keys, or raises the
      first failing check's `ValueError`. */
  function Validate(env: Env): (r: Outcome<Keys>)
    ensures r.Ok? ==> forall k :: k in RequiredKeys ==> IsSet(env, k)
    ensures r.Ok? ==> IsSet(env, ProjectVar) && r.value.project == env[ProjectVar]
    ensures r.Ok? && TracingOn(env) ==> IsSet(env, LangchainKey)
  {
    var missing := MissingKeys(env);
    if missing != [] then
      Raised(MissingKeysPrefix + Join(missing, ", "))
    else if !IsSet(env, ProjectVar) then
      Raised(ProjectUnsetMessage)
    else if TracingOn(env) && !IsSet(env, LangchainKey) then
      Raised(LangchainKeyUnsetMessage)
    else
      Ok(Keys(env[OpenAIKey], env[GroqKey], env[TavilyKey], env[PineconeKey],
              GetEnv(env, GoogleKey), GetEnv(env, LangchainKey), GetEnv(env, HuggingfaceKey),
              env[ProjectVar]))
  }

  /** The missing list holds exactly the unset required keys, in the fixed
      order `RequiredKeys` gives them. */
  lemma MissingKeysAreUnsetRequired(env: Env)
    ensures MissingKeys(env) == UnsetAmong(RequiredKeys, env)
    ensures forall k :: k in MissingKeys(env) <==> k in RequiredKeys && !IsSet(env, k)
  {
    UnsetAmongFour(OpenAIKey, GroqKey, TavilyKey, PineconeKey, env);
  }

  lemma UnsetAmongFour(a: string, b: string, c: string, d: string, env: Env)
    ensures UnsetAmong([a, b, c, d], env)
      == UnsetOne(env, a) + (UnsetOne(env, b) + (UnsetOne(env, c) + UnsetOne(env, d)))
  {
    var one := UnsetCheck(env);
    assert [a, b, c, d] == [a] + ([b] + ([c] + [d]));
    FlatMapConcat([a], [b] + ([c] + [d]), one);
    FlatMapConcat([b], [c] + [d], one);
    FlatMapConcat([c], [d], one);
    FlatMapSingleton(a, one);
    FlatMapSingleton(b, one);
    FlatMapSingleton(c, one);
    FlatMapSingleton(d, one);
  }

  /** Loading fails with the missing-key message exactly when some required
      key is unset; that check comes before every other one. */
  lemma MissingKeysFailure(env: Env)
    ensures MissingKeys(env) != [] <==>
      Validate(env) == Raised(MissingKeysPrefix + Join(MissingKeys(env), ", "))
  {
    if MissingKeys(env) == [] {
      assert Validate(env).Ok? || Validate(env).error != MissingKeysPrefix + Join([], ", ");
    }
  }

  /** Which checks fail, and in what order of precedence. */
  lemma ValidateOutcome(env: Env)
    ensures Validate(env).Ok? <==>
      (forall k :: k in RequiredKeys ==> IsSet(env, k))
      && IsSet(env, ProjectVar)
      && (TracingOn(env) ==> IsSet(env, LangchainKey))
    ensures MissingKeys(env) == [] && !IsSet(env, ProjectVar) ==>
      Validate(env) == Raised(ProjectUnsetMessage)
    ensures MissingKeys(env) == [] && IsSet(env, ProjectVar) && TracingOn(env) && !IsSet(env, LangchainKey) ==>
      Validate(env) == Raised(LangchainKeyUnsetMessage)
  {
    MissingKeysAreUnsetRequired(env);
  }

  /** The Google, LangChain and HuggingFace keys never contribute to the
      missing-key list, and the Google and HuggingFace keys never decide
      whether loading fails. */
  lemma OptionalKeysIrrelevant(env: Env, k: string, v: string)
    requires k == GoogleKey || k == LangchainKey || k == HuggingfaceKey
    ensures MissingKeys(env[k := v]) == MissingKeys(env)
    ensures k != LangchainKey ==>
      Validate(env[k := v]).Ok? == Validate(env).Ok?
      && (Validate(env).Raised? ==> Validate(env[k := v]) == Validate(env))
  {
    var env' := env[k := v];
    assert forall q :: q in RequiredKeys ==> IsSet(env', q) == IsSet(env, q);
    assert IsSet(env', ProjectVar) == IsSet(env, ProjectVar);
    assert TracingOn(env') == TracingOn(env);
    assert k != LangchainKey ==> IsSet(env', LangchainKey) == IsSet(env, LangchainKey);
  }

  /** Any value other than the exact string "true", "True" included, leaves
      the LangChain key unchecked. */
  lemma TracingNeedsExactTrue(env: Env)
    requires MissingKeys(env) == [] && IsSet(env, ProjectVar)
    requires TracingVar in env && env[TracingVar] == "True"
    ensures Validate(env).Ok?
  {
  }
}

/**
 * Whether the image service is usable (`openai_available`, `openai_status`,
 * app.py) and which client settings it would use (`make_openai_client`).
 * Both read the process environment after start-up and whether the
 * optional `openai` package could be imported.
 */
module Config {
  import opened Wrappers
  import opened Strings

  const ApiKeyVar := "OPENAI_API_KEY"
  const BaseUrlVar := "OPENAI_BASE_URL"
  const ModelVar := "OPENAI_IMAGE_MODEL"
  const DefaultModel := "gpt-image-1"

  const MissingPackage := "Missing 'openai' package (pip install openai)"
  const MissingKey := "OPENAI_API_KEY not set (export/set it or place it in .env)"
  const Configured := "Configured"

  /** `os.environ.get(name, default)`. */
  function Get(env: map<string, string>, name: string, default: string): (v: string)
    ensures name in env ==> v == env[name]
    ensures name !in env ==> v == default
  {
    if name in env then env[name] else default
  }

  /** The API key as the service uses it: the variable stripped of
      whitespace, so a piece of it with no whitespace at either end, empty
      exactly when the variable is unset or holds only whitespace. */
  function ApiKey(env: map<string, string>): (k: string)
    ensures k == Strip(Get(env, ApiKeyVar, ""), IsSpace)
    ensures var raw := Get(env, ApiKeyVar, "");
            k == "" <==> forall i :: 0 <= i < |raw| ==> IsSpace(raw[i])
    ensures |k| > 0 ==> !IsSpace(k[0]) && !IsSpace(k[|k| - 1])
    ensures Contains(Get(env, ApiKeyVar, ""), k)
  {
    var raw := Get(env, ApiKeyVar, "");
    StripEmpty(raw, IsSpace);
    StripInside(raw, IsSpace);
    Strip(raw, IsSpace)
  }

  /** The image model, read once at start-up (`OPENAI_MODEL`). */
  function ImageModel(env: map<string, string>): (m: string)
    ensures ModelVar !in env ==> m == DefaultModel
    ensures ModelVar in env ==> m == env[ModelVar]
  {
    Get(env, ModelVar, DefaultModel)
  }

  datatype Status = Status(available: bool, reason: string)

  /** `openai_status()`: `packageInstalled` says whether `from openai import
      OpenAI` succeeded. */
  function OpenAIStatus(packageInstalled: bool, env: map<string, string>): (s: Status)
    ensures s.available <==> packageInstalled && ApiKey(env) != ""
    ensures !packageInstalled ==> s.reason == MissingPackage
    ensures packageInstalled && ApiKey(env) == "" ==> s.reason == MissingKey
    ensures s.available ==> s.reason == Configured
    ensures |s.reason| > 0
  {
    if !packageInstalled then Status(false, MissingPackage)
    else if ApiKey(env) == "" then Status(false, MissingKey)
    else Status(true, Configured)
  }

  /** `openai_available()`: the package is there and the key variable holds
      something other than whitespace. */
  function OpenAIAvailable(packageInstalled: bool, env: map<string, string>): (r: bool)
    ensures var raw := Get(env, ApiKeyVar, "");
            r <==> packageInstalled && exists i :: 0 <= i < |raw| && !IsSpace(raw[i])
  {
    packageInstalled && ApiKey(env) != ""
  }

  /** `openai_available()` is always the first component of `openai_status()`. */
  lemma AvailableAgreesWithStatus(packageInstalled: bool, env: map<string, string>)
    ensures OpenAIAvailable(packageInstalled, env) == OpenAIStatus(packageInstalled, env).available
  {
  }

  /** A key made only of whitespace counts as no key at all. */
  lemma BlankKeyIsUnavailable(packageInstalled: bool, env: map<string, string>)
    requires forall i :: 0 <= i < |Get(env, ApiKeyVar, "")| ==> IsSpace(Get(env, ApiKeyVar, "")[i])
    ensures OpenAIStatus(packageInstalled, env) ==
      Status(false, if packageInstalled then MissingKey else MissingPackage)
  {
    StripAllDropped(Get(env, ApiKeyVar, ""), IsSpace);
  }

  /** The settings `make_openai_client()` builds a client from. */
  datatype ClientSettings = ClientSettings(apiKey: string, baseUrl: Option<string>)

  /** `make_openai_client()`: no client without the package or without a key;
      otherwise the stripped key, and the base URL when one is set and nonempty. */
  function MakeClient(packageInstalled: bool, env: map<string, string>): (c: Option<ClientSettings>)
    ensures c.Some? <==> OpenAIAvailable(packageInstalled, env)
    ensures c.Some? ==> c.value.apiKey == ApiKey(env) && |c.value.apiKey| > 0
    ensures c.Some? ==> (c.value.baseUrl.Some? <==> BaseUrlVar in env && env[BaseUrlVar] != "")
    ensures c.Some? && c.value.baseUrl.Some? ==> c.value.baseUrl.value == env[BaseUrlVar]
  {
    if !packageInstalled then None
    else if ApiKey(env) == "" then None
    else
      var url := Get(env, BaseUrlVar, "");
      Some(ClientSettings(ApiKey(env), if url != "" then Some(url) else None))
  }
}

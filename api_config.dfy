/** How the frontend turns an API path into a request URL. */
module ApiConfig {
  import opened Wrappers

  /** The build-time environment: whether it is a development build, and the
      value of `VITE_API_URL` (absent when not configured). */
  datatype Env = Env(dev: bool, viteApiUrl: Option<string>)

  /** The backend address used when a production build lacks `VITE_API_URL`. */
  const DefaultBackend := "https://sanxing.onrender.com"

  /** `getApiBaseUrl`: empty in development, so requests go to the dev-server
      proxy; in production the configured URL, or the default when it is
      unset or empty. */
  function ApiBaseUrl(env: Env): (base: string)
    ensures env.dev ==> base == ""
    ensures !env.dev && (env.viteApiUrl == None || env.viteApiUrl == Some("")) ==> base == DefaultBackend
    ensures !env.dev && env.viteApiUrl.Some? && env.viteApiUrl.value != "" ==> base == env.viteApiUrl.value
    ensures !env.dev ==> base != ""
  {
    if env.dev then ""
    else if env.viteApiUrl.None? || env.viteApiUrl.value == "" then DefaultBackend
    else env.viteApiUrl.value
  }

  /** `apiUrl(path)`. */
  function ApiUrl(env: Env, path: string): (url: string)
    ensures env.dev ==> url == path
    ensures !env.dev ==> url == ApiBaseUrl(env) + path
  {
    if env.dev then path else ApiBaseUrl(env) + path
  }

  /** In both modes the URL is the base followed by the path, and the path can
      be read back off its end. */
  lemma ApiUrlIsBasePlusPath(env: Env, path: string)
    ensures ApiUrl(env, path) == ApiBaseUrl(env) + path
    ensures ApiUrl(env, path)[|ApiBaseUrl(env)|..] == path
  {
    if env.dev {
      assert "" + path == path;
    }
  }

  /** Two different paths never give the same URL in the same environment. */
  lemma ApiUrlInjective(env: Env, p: string, q: string)
    requires ApiUrl(env, p) == ApiUrl(env, q)
    ensures p == q
  {
    ApiUrlIsBasePlusPath(env, p);
    ApiUrlIsBasePlusPath(env, q);
  }

  /** A production build without the variable talks to the default backend. */
  lemma UnconfiguredProductionExample()
    ensures ApiUrl(Env(false, None), "/api/test") == "https://sanxing.onrender.com/api/test"
    ensures ApiUrl(Env(true, Some("https://x.example")), "/api/test") == "/api/test"
  {
  }
}

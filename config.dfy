/**
 * The player's connection settings: the API base URL and key, the current
 * display mode and the full-screen flag, and the two record updates the
 * settings menu performs.
 */
module Config {
  import opened Wrappers

  datatype Config = Config(apiUrl: string, apiKey: string, currentMode: string, fullmode: bool)

  /** JavaScript's `value || fallback` on an optional build-time string: an absent or empty value falls back. */
  function OrElse(value: Option<string>, fallback: string): (r: string)
    ensures value.Some? && value.value != "" ==> r == value.value
    ensures value.None? || value.value == "" ==> r == fallback
  {
    if value.Some? && value.value != "" then value.value else fallback
  }

  /** The settings used when nothing is stored: the build-time URL or a single space, the build-time key or nothing. */
  function DefaultConfig(envUrl: Option<string>, envKey: Option<string>): (c: Config)
    ensures c.apiUrl != ""
    ensures c.currentMode == "lyrics" && !c.fullmode
  {
    Config(OrElse(envUrl, " "), OrElse(envKey, ""), "lyrics", false)
  }

  /** The settings at start-up: the stored record when there is one, the defaults otherwise. */
  function InitialConfig(stored: Option<Config>, envUrl: Option<string>, envKey: Option<string>): (c: Config)
    ensures stored.Some? ==> c == stored.value
    ensures stored.None? ==> c == DefaultConfig(envUrl, envKey)
  {
    if stored.Some? then stored.value else DefaultConfig(envUrl, envKey)
  }

  /** `isConfigured` before the health probe answers: whether the URL is non-empty. */
  predicate InitiallyConfigured(c: Config)
  {
    c.apiUrl != ""
  }

  /** `url.replace(/\/$/, "")`: one '/' at the very end is dropped. */
  function StripTrailingSlash(url: string): (r: string)
    ensures |url| - 1 <= |r| <= |url| && r == url[..|r|]
    ensures |r| < |url| <==> |url| > 0 && url[|url| - 1] == '/'
  {
    if |url| > 0 && url[|url| - 1] == '/' then url[..|url| - 1] else url
  }

  /** `updateConfig`: URL (without its trailing slash), key and full-screen flag replaced, the mode kept. */
  function UpdateConfig(prev: Config, apiUrl: string, apiKey: string, fullmode: bool): (c: Config)
    ensures c.apiUrl == StripTrailingSlash(apiUrl) && c.apiKey == apiKey && c.fullmode == fullmode
    ensures c.currentMode == prev.currentMode
  {
    prev.(apiUrl := StripTrailingSlash(apiUrl), apiKey := apiKey, fullmode := fullmode)
  }

  /** `updateMode`: only the mode changes. */
  function UpdateMode(prev: Config, mode: string): (c: Config)
    ensures c.currentMode == mode
    ensures c.apiUrl == prev.apiUrl && c.apiKey == prev.apiKey && c.fullmode == prev.fullmode
  {
    prev.(currentMode := mode)
  }

  /** With nothing stored the player starts out configured, even without a build-time URL. */
  lemma DefaultIsConfigured(envUrl: Option<string>, envKey: Option<string>)
    ensures InitiallyConfigured(InitialConfig(None, envUrl, envKey))
  {
  }

  /** Stripping undoes appending a slash, so a URL entered with one trailing slash is stored without it. */
  lemma StripUndoesSlash(url: string)
    ensures StripTrailingSlash(url + "/") == url
  {
    var s := url + "/";
    assert s[|s| - 1] == '/';
    assert s[..|s| - 1] == url;
  }

  /** A URL not ending in '/' is kept as it is. */
  lemma StripKeepsOtherUrls(url: string)
    requires url == "" || url[|url| - 1] != '/'
    ensures StripTrailingSlash(url) == url
  {
  }

  /** Only one slash is dropped: a URL ending in two keeps the second-to-last. */
  lemma StripOnlyOneSlash(url: string)
    requires |url| >= 2 && url[|url| - 1] == '/' && url[|url| - 2] == '/'
    ensures StripTrailingSlash(url) == url[..|url| - 1]
    ensures StripTrailingSlash(url) != StripTrailingSlash(StripTrailingSlash(url))
  {
    var r := url[..|url| - 1];
    assert r[|r| - 1] == '/';
  }

  /** The two updates touch different fields, so their order does not matter. */
  lemma UpdatesCommute(c: Config, apiUrl: string, apiKey: string, fullmode: bool, mode: string)
    ensures UpdateMode(UpdateConfig(c, apiUrl, apiKey, fullmode), mode) ==
            UpdateConfig(UpdateMode(c, mode), apiUrl, apiKey, fullmode)
  {
  }

  /** A later `updateConfig` overrides an earlier one completely. */
  lemma LastUpdateWins(c: Config, u1: string, k1: string, f1: bool, u2: string, k2: string, f2: bool)
    ensures UpdateConfig(UpdateConfig(c, u1, k1, f1), u2, k2, f2) == UpdateConfig(c, u2, k2, f2)
  {
  }
}

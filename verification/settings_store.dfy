/** The settings store (`settingsStore.ts`): API settings, rate limits, the
    day's token usage and the connection status, with partial-merge updates,
    the API-key format check, and the redaction applied before the state is
    persisted. The day (the date part of the current ISO time) is a
    parameter; the dollar cost kept beside the token count is not modelled. */
module Settings {
  import opened Wrappers
  import opened Text

  datatype ApiSettings = ApiSettings(apiKey: string, endpoint: string, model: string, maxTokens: int, temperature: real)

  datatype RateLimits = RateLimits(maxRequestsPerMinute: int, maxTokensPerDay: int, warningThreshold: int)

  datatype ApiUsage = ApiUsage(totalTokens: int, lastResetDate: string)

  datatype State = State(
    apiSettings: ApiSettings,
    rateLimits: RateLimits,
    apiUsage: ApiUsage,
    isConnected: bool,
    connectionError: Option<string>)

  const DefaultApiSettings := ApiSettings("", "https://api.anthropic.com/v1/messages", "claude-3-opus-20240229", 4096, 0.7)

  const DefaultRateLimits := RateLimits(50, 1000000, 80)

  /** The default usage is computed once, when the module loads: its date is
      the load day, not the day the defaults are restored. */
  function DefaultApiUsage(loadDay: string): ApiUsage
  {
    ApiUsage(0, loadDay)
  }

  /** The store's initial state, which `clearSettings` restores. */
  function Initial(loadDay: string): (r: State)
    ensures r.apiSettings.apiKey == "" && r.apiUsage.totalTokens == 0 && !r.isConnected && r.connectionError.None?
  {
    State(DefaultApiSettings, DefaultRateLimits, DefaultApiUsage(loadDay), false, None)
  }

  // ---------------------------------------------------------------- partial merges

  /** A `Partial<ApiSettings>`: `None` is an absent key. */
  datatype ApiSettingsPatch = ApiSettingsPatch(
    apiKey: Option<string>,
    endpoint: Option<string>,
    model: Option<string>,
    maxTokens: Option<int>,
    temperature: Option<real>)

  /** `{ ...a, ...p }`. */
  function MergeApiSettings(a: ApiSettings, p: ApiSettingsPatch): ApiSettings
  {
    ApiSettings(p.apiKey.GetOr(a.apiKey), p.endpoint.GetOr(a.endpoint), p.model.GetOr(a.model),
                p.maxTokens.GetOr(a.maxTokens), p.temperature.GetOr(a.temperature))
  }

  /** Two patches applied in turn, as one patch: the later one's keys win. */
  function ThenApiSettings(p: ApiSettingsPatch, q: ApiSettingsPatch): ApiSettingsPatch
  {
    ApiSettingsPatch(
      if q.apiKey.Some? then q.apiKey else p.apiKey,
      if q.endpoint.Some? then q.endpoint else p.endpoint,
      if q.model.Some? then q.model else p.model,
      if q.maxTokens.Some? then q.maxTokens else p.maxTokens,
      if q.temperature.Some? then q.temperature else p.temperature)
  }

  /** `updateApiSettings`: every key the patch has takes its value, every
      other setting and the rest of the state are kept. */
  function UpdateApiSettings(s: State, p: ApiSettingsPatch): (r: State)
    ensures p.apiKey.Some? ==> r.apiSettings.apiKey == p.apiKey.value
    ensures p.apiKey.None? ==> r.apiSettings.apiKey == s.apiSettings.apiKey
    ensures p.endpoint.Some? ==> r.apiSettings.endpoint == p.endpoint.value
    ensures p.endpoint.None? ==> r.apiSettings.endpoint == s.apiSettings.endpoint
    ensures p.model.Some? ==> r.apiSettings.model == p.model.value
    ensures p.model.None? ==> r.apiSettings.model == s.apiSettings.model
    ensures p.maxTokens.Some? ==> r.apiSettings.maxTokens == p.maxTokens.value
    ensures p.maxTokens.None? ==> r.apiSettings.maxTokens == s.apiSettings.maxTokens
    ensures p.temperature.Some? ==> r.apiSettings.temperature == p.temperature.value
    ensures p.temperature.None? ==> r.apiSettings.temperature == s.apiSettings.temperature
    ensures r.(apiSettings := s.apiSettings) == s
  {
    s.(apiSettings := MergeApiSettings(s.apiSettings, p))
  }

  /** Updating twice is updating once with the two patches combined, and an
      empty patch changes nothing. */
  lemma UpdateApiSettingsThen(s: State, p: ApiSettingsPatch, q: ApiSettingsPatch)
    ensures UpdateApiSettings(UpdateApiSettings(s, p), q) == UpdateApiSettings(s, ThenApiSettings(p, q))
    ensures UpdateApiSettings(s, ApiSettingsPatch(None, None, None, None, None)) == s
  {
  }

  /** A `Partial<RateLimitSettings>`. */
  datatype RateLimitsPatch = RateLimitsPatch(
    maxRequestsPerMinute: Option<int>,
    maxTokensPerDay: Option<int>,
    warningThreshold: Option<int>)

  /** `updateRateLimits`: every key the patch has takes its value, every
      other limit and the rest of the state are kept. */
  function UpdateRateLimits(s: State, p: RateLimitsPatch): (r: State)
    ensures p.maxRequestsPerMinute.Some? ==> r.rateLimits.maxRequestsPerMinute == p.maxRequestsPerMinute.value
    ensures p.maxRequestsPerMinute.None? ==> r.rateLimits.maxRequestsPerMinute == s.rateLimits.maxRequestsPerMinute
    ensures p.maxTokensPerDay.Some? ==> r.rateLimits.maxTokensPerDay == p.maxTokensPerDay.value
    ensures p.maxTokensPerDay.None? ==> r.rateLimits.maxTokensPerDay == s.rateLimits.maxTokensPerDay
    ensures p.warningThreshold.Some? ==> r.rateLimits.warningThreshold == p.warningThreshold.value
    ensures p.warningThreshold.None? ==> r.rateLimits.warningThreshold == s.rateLimits.warningThreshold
    ensures r.(rateLimits := s.rateLimits) == s
  {
    var l := s.rateLimits;
    s.(rateLimits := RateLimits(p.maxRequestsPerMinute.GetOr(l.maxRequestsPerMinute),
                                p.maxTokensPerDay.GetOr(l.maxTokensPerDay),
                                p.warningThreshold.GetOr(l.warningThreshold)))
  }

  // ---------------------------------------------------------------- usage

  /** `updateApiUsage`: on the day already recorded the tokens are added;
      on any other day the count restarts at the new tokens and the day is
      recorded. */
  function UpdateApiUsage(s: State, tokens: int, today: string): (r: State)
    ensures r.apiUsage.lastResetDate == today
    ensures s.apiUsage.lastResetDate == today ==> r.apiUsage.totalTokens == s.apiUsage.totalTokens + tokens
    ensures s.apiUsage.lastResetDate != today ==> r.apiUsage.totalTokens == tokens
    ensures r.(apiUsage := s.apiUsage) == s
  {
    if s.apiUsage.lastResetDate != today then s.(apiUsage := ApiUsage(tokens, today))
    else s.(apiUsage := ApiUsage(s.apiUsage.totalTokens + tokens, s.apiUsage.lastResetDate))
  }

  /** Within one day the count is the sum of everything recorded that day:
      a new day's first update starts from zero. */
  lemma UpdateApiUsageSameDay(s: State, a: int, b: int, today: string)
    ensures UpdateApiUsage(UpdateApiUsage(s, a, today), b, today).apiUsage
            == ApiUsage((if s.apiUsage.lastResetDate == today then s.apiUsage.totalTokens else 0) + a + b, today)
  {
  }

  /** `resetApiUsage`: no tokens, dated today. */
  function ResetApiUsage(s: State, today: string): (r: State)
    ensures r.apiUsage == ApiUsage(0, today)
    ensures r.(apiUsage := s.apiUsage) == s
  {
    s.(apiUsage := ApiUsage(0, today))
  }

  /** `setConnectionStatus`: a missing or empty error message is stored as
      no error. */
  function SetConnectionStatus(s: State, connected: bool, error: Option<string>): (r: State)
    ensures r.isConnected == connected
    ensures r.connectionError.Some? <==> error.Some? && error.value != ""
    ensures r.connectionError.Some? ==> r.connectionError == error
    ensures r.(isConnected := s.isConnected, connectionError := s.connectionError) == s
  {
    s.(isConnected := connected, connectionError := if error.Some? && error.value != "" then error else None)
  }

  /** `clearSettings`: every default back, disconnected; the usage takes the
      default computed at load time. */
  function ClearSettings(s: State, loadDay: string): (r: State)
    ensures r == Initial(loadDay)
    ensures r.apiSettings == DefaultApiSettings && r.rateLimits == DefaultRateLimits
    ensures r.apiUsage == ApiUsage(0, loadDay) && !r.isConnected && r.connectionError.None?
  {
    Initial(loadDay)
  }

  // ---------------------------------------------------------------- API key

  const KeyPrefix := "sk-ant-"

  /** A character of `[a-zA-Z0-9-_]`. */
  predicate KeyChar(ch: char)
  {
    ('a' <= ch <= 'z') || ('A' <= ch <= 'Z') || ('0' <= ch <= '9') || ch == '-' || ch == '_'
  }

  /** How many key characters `s` starts with. */
  function KeyCharRun(s: string): (r: nat)
    ensures r <= |s|
    ensures forall i :: 0 <= i < r ==> KeyChar(s[i])
    ensures r < |s| ==> !KeyChar(s[r])
  {
    if |s| == 0 || !KeyChar(s[0]) then 0 else 1 + KeyCharRun(s[1..])
  }

  /** `validateApiKey`: the whole key matches `^sk-ant-[a-zA-Z0-9-_]{86,}$`,
      that is the prefix followed by at least 86 key characters and nothing
      else. */
  function ValidateApiKey(key: string): (r: bool)
    ensures r <==> StartsWith(key, KeyPrefix) && |key| >= |KeyPrefix| + 86
                   && forall i :: |KeyPrefix| <= i < |key| ==> KeyChar(key[i])
  {
    StartsWith(key, KeyPrefix) && |key| - |KeyPrefix| >= 86 && KeyCharRun(key[|KeyPrefix|..]) == |key| - |KeyPrefix|
  }

  /** Every accepted key has at least 93 characters, and a key of exactly 93
      is accepted, although the source's comment promises 95 or more. */
  lemma ValidateApiKeyLength(key: string)
    ensures ValidateApiKey(key) ==> |key| >= 93
    ensures ValidateApiKey(KeyPrefix + seq(86, _ => 'a'))
    ensures |KeyPrefix + seq(86, _ => 'a')| == 93
  {
    var k := KeyPrefix + seq(86, _ => 'a');
    assert k[..|KeyPrefix|] == KeyPrefix;
    assert forall i :: |KeyPrefix| <= i < |k| ==> k[i] == 'a';
  }

  // ---------------------------------------------------------------- persistence

  /** The part of the state written to browser storage. */
  datatype Persisted = Persisted(apiSettings: ApiSettings, rateLimits: RateLimits, apiUsage: ApiUsage)

  /** `partialize`: the settings, limits and usage, with the API key blanked. */
  function Partialize(s: State): (r: Persisted)
    ensures r.apiSettings.apiKey == ""
    ensures r.apiSettings.(apiKey := s.apiSettings.apiKey) == s.apiSettings
    ensures r.rateLimits == s.rateLimits && r.apiUsage == s.apiUsage
  {
    Persisted(s.apiSettings.(apiKey := ""), s.rateLimits, s.apiUsage)
  }

  /** Rehydration's shallow merge of the stored fields over the current
      state. */
  function Rehydrate(current: State, p: Persisted): (r: State)
    ensures r.isConnected == current.isConnected && r.connectionError == current.connectionError
    ensures r.apiSettings == p.apiSettings && r.rateLimits == p.rateLimits && r.apiUsage == p.apiUsage
  {
    current.(apiSettings := p.apiSettings, rateLimits := p.rateLimits, apiUsage := p.apiUsage)
  }

  /** Persisting and reloading keeps every setting except the API key,
      which comes back empty. Reloading a reloaded state again is the same. */
  lemma PersistRoundTrip(s: State, current: State)
    ensures Rehydrate(current, Partialize(s)).apiSettings == s.apiSettings.(apiKey := "")
    ensures Rehydrate(current, Partialize(s)).rateLimits == s.rateLimits
    ensures Rehydrate(current, Partialize(s)).apiUsage == s.apiUsage
    ensures Partialize(Rehydrate(current, Partialize(s))) == Partialize(s)
  {
  }
}

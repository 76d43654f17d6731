/**
 * Application configuration (config/settings.py): the three API keys read
 * from the environment and the numeric defaults of the retry loop and the
 * history summarisation rule.
 */
module Settings {
  import opened Wrappers

  datatype Config = Config(
    deepseekApiKey: Option<string>,
    kimiApiKey: Option<string>,
    dashscopeApiKey: Option<string>,
    apiTimeout: int,        // seconds per model call
    apiMaxRetries: int,     // attempts per model call
    apiRetryDelay: int,     // seconds; the k-th wait is k times this
    maxDisplayLength: int,
    summaryThreshold: int)  // AI replies longer than this are abridged

  const DefaultApiTimeout: int := 120
  const DefaultApiMaxRetries: int := 3
  const DefaultApiRetryDelay: int := 2
  const DefaultMaxDisplayLength: int := 500
  const DefaultSummaryThreshold: int := 2000

  /** The configuration built from the three environment lookups, with the fixed defaults. */
  function Load(deepseek: Option<string>, kimi: Option<string>, dashscope: Option<string>): (c: Config)
    ensures c.deepseekApiKey == deepseek && c.kimiApiKey == kimi && c.dashscopeApiKey == dashscope
    ensures c.apiTimeout == 120 && c.apiMaxRetries == 3 && c.apiRetryDelay == 2
    ensures c.maxDisplayLength == 500 && c.summaryThreshold == 2000
  {
    Config(deepseek, kimi, dashscope, DefaultApiTimeout, DefaultApiMaxRetries, DefaultApiRetryDelay,
      DefaultMaxDisplayLength, DefaultSummaryThreshold)
  }

  /** Python truthiness of an optional key: neither `None` nor the empty string. */
  predicate Present(key: Option<string>) {
    key.Some? && key.value != ""
  }

  const DeepseekKeyName: string := "DEEPSEEK_API_KEY"
  const KimiKeyName: string := "KIMI_API_KEY"
  const DashscopeKeyName: string := "DASHSCOPE_API_KEY"

  /** Position of a key name in the fixed reporting order; 3 for any other name. */
  function KeyRank(name: string): nat {
    if name == DeepseekKeyName then 0
    else if name == KimiKeyName then 1
    else if name == DashscopeKeyName then 2
    else 3
  }

  /** Whether the key named `name` is unset or empty in `c`. */
  predicate IsMissing(c: Config, name: string) {
    || (name == DeepseekKeyName && !Present(c.deepseekApiKey))
    || (name == KimiKeyName && !Present(c.kimiApiKey))
    || (name == DashscopeKeyName && !Present(c.dashscopeApiKey))
  }

  /** True when all three keys are set and non-empty, i.e. when no key name is missing. */
  function ValidateApiKeys(c: Config): (ok: bool)
    ensures ok <==> forall name :: !IsMissing(c, name)
  {
    assert !Present(c.deepseekApiKey) ==> IsMissing(c, DeepseekKeyName);
    assert !Present(c.kimiApiKey) ==> IsMissing(c, KimiKeyName);
    assert !Present(c.dashscopeApiKey) ==> IsMissing(c, DashscopeKeyName);
    Present(c.deepseekApiKey) && Present(c.kimiApiKey) && Present(c.dashscopeApiKey)
  }

  /**
   * The names of the unset or empty keys: exactly the missing ones, in the
   * fixed order DEEPSEEK, KIMI, DASHSCOPE, hence without repetition.
   */
  function GetMissingKeys(c: Config): (missing: seq<string>)
    ensures forall name :: name in missing <==> IsMissing(c, name)
    ensures forall i, j :: 0 <= i < j < |missing| ==> KeyRank(missing[i]) < KeyRank(missing[j])
    ensures forall i :: 0 <= i < |missing| ==> KeyRank(missing[i]) < 3
    ensures |missing| <= 3
  {
    (if !Present(c.deepseekApiKey) then [DeepseekKeyName] else [])
    + (if !Present(c.kimiApiKey) then [KimiKeyName] else [])
    + (if !Present(c.dashscopeApiKey) then [DashscopeKeyName] else [])
  }

  /** The two checks agree: the keys validate exactly when none is reported missing. */
  lemma ValidIffNoneMissing(c: Config)
    ensures ValidateApiKeys(c) <==> GetMissingKeys(c) == []
  {
    if !ValidateApiKeys(c) {
      if !Present(c.deepseekApiKey) {
        assert IsMissing(c, DeepseekKeyName);
      } else if !Present(c.kimiApiKey) {
        assert IsMissing(c, KimiKeyName);
      } else {
        assert IsMissing(c, DashscopeKeyName);
      }
    }
  }
}

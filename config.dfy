/**
 * Application settings (config.py): the defaults and the three field
 * validators that reject a configuration at load time.
 */
module Config {
  import opened Common

  datatype Settings = Settings(
    openrouterApiKey: string,
    databaseUrl: string,
    dspyModel: string,
    schedulerIntervalSeconds: int,
    schedulerEnabled: bool,
    host: string,
    port: int,
    logLevel: string,
    fallbackStartHour: int,
    fallbackDurationHours: int)

  /** The configuration with every default applied; the API key has none. */
  function Defaults(apiKey: string): Settings {
    Settings(
      openrouterApiKey := apiKey,
      databaseUrl := "sqlite:///tasks.db",
      dspyModel := "openrouter/deepseek/deepseek-v3.2-exp",
      schedulerIntervalSeconds := 5,
      schedulerEnabled := true,
      host := "0.0.0.0",
      port := 5000,
      logLevel := "INFO",
      fallbackStartHour := 9,
      fallbackDurationHours := 1)
  }

  const IntervalError := "scheduler_interval_seconds must be positive"
  const StartHourError := "fallback_start_hour must be between 0 and 23"
  const DurationError := "fallback_duration_hours must be positive"

  /** A configuration every validator accepts. */
  predicate Valid(s: Settings) {
    && s.schedulerIntervalSeconds > 0
    && 0 <= s.fallbackStartHour <= 23
    && s.fallbackDurationHours > 0
  }

  /**
   * Loading runs the three validators in field order and reports every
   * message that fires, as pydantic collects them into one error.
   */
  function Load(raw: Settings): (r: Result<Settings, seq<string>>)
    ensures r.Ok? <==> Valid(raw)
    ensures r.Ok? ==> r.value == raw
    ensures r.Err? ==> r.error != []
    ensures r.Err? ==> (IntervalError in r.error <==> raw.schedulerIntervalSeconds <= 0)
    ensures r.Err? ==> (StartHourError in r.error <==> raw.fallbackStartHour < 0 || raw.fallbackStartHour > 23)
    ensures r.Err? ==> (DurationError in r.error <==> raw.fallbackDurationHours <= 0)
  {
    var errors :=
      (if raw.schedulerIntervalSeconds <= 0 then [IntervalError] else [])
      + (if raw.fallbackStartHour < 0 || raw.fallbackStartHour > 23 then [StartHourError] else [])
      + (if raw.fallbackDurationHours <= 0 then [DurationError] else []);
    if errors == [] then Ok(raw) else Err(errors)
  }

  /** The defaults pass their own validators, whatever the API key. */
  lemma DefaultsLoad(apiKey: string)
    ensures Load(Defaults(apiKey)) == Ok(Defaults(apiKey))
    ensures Defaults(apiKey).fallbackStartHour == 9 && Defaults(apiKey).fallbackDurationHours == 1
    ensures Defaults(apiKey).schedulerIntervalSeconds == 5 && Defaults(apiKey).schedulerEnabled
  {
  }
}

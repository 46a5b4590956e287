/** config/config.go: the bot's settings, read once from the environment at start-up. */
module Config {
  import opened Wrappers
  import opened Text

  /** The process environment. A variable that is not set reads as "" (os.Getenv). */
  type Env = map<string, string>

  /** Durations and instants are counted in nanoseconds, as Go's time.Duration is. */
  const Minute: int := 60_000_000_000

  /** The largest number of minutes whose duration fits a time.Duration. */
  const MaxMinutes: int := 153_722_867

  datatype Settings = Settings(
    token: string,
    guildId: string,
    roleChannelId: string,
    notificationChannelId: string,
    statsChannelId: string,
    roleDuration: int,
    renewalDuration: int,
    roleMessageId: string)

  /** os.Getenv */
  function Getenv(env: Env, key: string): string {
    if key in env then env[key] else ""
  }

  /** getEnv: the variable's value when it is set to something non-empty, the default otherwise. */
  function GetEnv(env: Env, key: string, default: string): (v: string)
    ensures key in env && env[key] != "" ==> v == env[key]
    ensures key !in env || env[key] == "" ==> v == default
  {
    var value := Getenv(env, key);
    if value != "" then value else default
  }

  /** Setting a variable to a non-empty value makes getEnv return it, whatever the default. */
  lemma GetEnvSet(env: Env, key: string, v: string, default: string)
    requires v != ""
    ensures GetEnv(env[key := v], key, default) == v
  {
  }

  /**
   * getDurationEnv: the variable read as a whole decimal integer when it is
   * set and parses; otherwise, also when it is set but malformed, the default.
   * There is no range check, so zero and negative values come through.
   */
  function GetDurationEnv(env: Env, key: string, default: int): (d: int)
    ensures Atoi(Getenv(env, key)).Some? ==> d == Atoi(Getenv(env, key)).value
    ensures Atoi(Getenv(env, key)).None? ==> d == default
  {
    var value := Getenv(env, key);
    if value != "" then
      match Atoi(value)
      case Some(n) => n
      case None => default
    else default
  }

  /** Multiplication of two time.Duration values wraps around at 64 bits. */
  function Wrap64(x: int): (r: int)
    ensures InInt64(r)
    ensures (r - x) % 0x1_0000_0000_0000_0000 == 0
    ensures InInt64(x) ==> r == x
  {
    (x - Int64Min) % 0x1_0000_0000_0000_0000 + Int64Min
  }

  /** `getDurationEnv(key, default) * time.Minute`: the number read, taken as minutes. */
  function MinutesFromEnv(env: Env, key: string, default: int): (d: int)
    ensures InInt64(d)
    ensures var n := GetDurationEnv(env, key, default); -MaxMinutes <= n <= MaxMinutes ==> d == n * Minute
  {
    Wrap64(GetDurationEnv(env, key, default) * Minute)
  }

  /** Load */
  function Load(env: Env): (cfg: Settings)
    ensures cfg.token == GetEnv(env, "BOT_TOKEN", "") && cfg.guildId == GetEnv(env, "GUILD_ID", "")
    ensures cfg.roleChannelId == GetEnv(env, "ROLE_CHANNEL_ID", "")
    ensures cfg.notificationChannelId == GetEnv(env, "NOTIFICATION_CHANNEL_ID", "")
    ensures cfg.statsChannelId == GetEnv(env, "STATS_CHANNEL_ID", "")
    ensures cfg.roleDuration == MinutesFromEnv(env, "ROLE_DURATION_HOURS", 65)
    ensures cfg.renewalDuration == MinutesFromEnv(env, "RENEWAL_DURATION_HOURS", 10)
    ensures InInt64(cfg.roleDuration) && InInt64(cfg.renewalDuration)
    ensures cfg.roleMessageId == ""
  {
    Settings(
      token := GetEnv(env, "BOT_TOKEN", ""),
      guildId := GetEnv(env, "GUILD_ID", ""),
      roleChannelId := GetEnv(env, "ROLE_CHANNEL_ID", ""),
      notificationChannelId := GetEnv(env, "NOTIFICATION_CHANNEL_ID", ""),
      statsChannelId := GetEnv(env, "STATS_CHANNEL_ID", ""),
      roleDuration := MinutesFromEnv(env, "ROLE_DURATION_HOURS", 65),
      renewalDuration := MinutesFromEnv(env, "RENEWAL_DURATION_HOURS", 10),
      roleMessageId := "")
  }

  /** A variable set to the decimal text of n yields n. */
  lemma DurationEnvRoundTrip(env: Env, key: string, n: int, default: int)
    requires InInt64(n)
    ensures GetDurationEnv(env[key := FormatInt(n)], key, default) == n
  {
    AtoiFormatInt(n);
  }

  /**
   * ROLE_DURATION_HOURS and RENEWAL_DURATION_HOURS count minutes, whatever
   * their names say: with neither set the durations are 65 and 10 minutes,
   * and a value n, zero and negative ones included, gives n minutes.
   */
  lemma LoadDurations(env: Env, n: int, m: int)
    requires -MaxMinutes <= n <= MaxMinutes && -MaxMinutes <= m <= MaxMinutes
    ensures
      var cfg := Load(env["ROLE_DURATION_HOURS" := FormatInt(n)]["RENEWAL_DURATION_HOURS" := FormatInt(m)]);
      cfg.roleDuration == n * Minute && cfg.renewalDuration == m * Minute
  {
    var e := env["ROLE_DURATION_HOURS" := FormatInt(n)]["RENEWAL_DURATION_HOURS" := FormatInt(m)];
    AtoiFormatInt(n);
    AtoiFormatInt(m);
    assert Getenv(e, "ROLE_DURATION_HOURS") == FormatInt(n);
    assert Getenv(e, "RENEWAL_DURATION_HOURS") == FormatInt(m);
  }

  lemma LoadDefaultDurations(env: Env)
    requires "ROLE_DURATION_HOURS" !in env && "RENEWAL_DURATION_HOURS" !in env
    ensures Load(env).roleDuration == 65 * Minute && Load(env).renewalDuration == 10 * Minute
  {
    assert Atoi("") == None;
  }

  /** A value that is not a whole integer (say "1h") is ignored in favour of the default. */
  lemma LoadMalformedRoleDuration(env: Env, v: string)
    requires Atoi(v).None?
    ensures Load(env["ROLE_DURATION_HOURS" := v]).roleDuration == 65 * Minute
  {
  }
}

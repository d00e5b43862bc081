/** Session timeouts, as app/config.py and the capability TTL rule derive them. */
module Config {
  import opened Wrappers

  // Instants and durations are whole microseconds, the resolution of a Python datetime.
  const SECOND := 1_000_000

  datatype Settings = Settings(
    idleMinutes: int,
    absoluteHours: int,
    idleSeconds: Option<int>,
    absoluteSeconds: Option<int>
  ) {
    /** Idle timeout in seconds; an explicit value in seconds wins over minutes. */
    function IdleSeconds(): int {
      if idleSeconds.Some? then Max(60, idleSeconds.value) else Max(60, idleMinutes * 60)
    }

    /** Absolute session lifetime in seconds. */
    function AbsoluteSeconds(): int {
      if absoluteSeconds.Some? then Max(300, absoluteSeconds.value) else Max(300, absoluteHours * 3600)
    }

    /** Lifetime of an unlock capability in seconds. */
    function CapabilitySeconds(): int {
      Max(60, Min(IdleSeconds(), 900))
    }

    function Idle(): int { IdleSeconds() * SECOND }
    function Absolute(): int { AbsoluteSeconds() * SECOND }
    function Ttl(): int { CapabilitySeconds() * SECOND }
  }

  function Max(a: int, b: int): int { if a < b then b else a }
  function Min(a: int, b: int): int { if a < b then a else b }

  /** A value in seconds overrides minutes or hours, and no setting goes below one minute idle or five absolute. */
  lemma SecondsOverride(cfg: Settings)
    ensures cfg.IdleSeconds() >= 60 && cfg.AbsoluteSeconds() >= 300
    ensures cfg.idleSeconds.Some? && cfg.idleSeconds.value >= 60 ==> cfg.IdleSeconds() == cfg.idleSeconds.value
    ensures cfg.idleSeconds.None? && cfg.idleMinutes >= 1 ==> cfg.IdleSeconds() == cfg.idleMinutes * 60
    ensures cfg.absoluteSeconds.Some? && cfg.absoluteSeconds.value >= 300 ==>
              cfg.AbsoluteSeconds() == cfg.absoluteSeconds.value
    ensures cfg.absoluteSeconds.None? && cfg.absoluteHours >= 1 ==> cfg.AbsoluteSeconds() == cfg.absoluteHours * 3600
    ensures cfg.CapabilitySeconds() == cfg.IdleSeconds() || (cfg.CapabilitySeconds() == 900 < cfg.IdleSeconds())
  {
  }

  /** Whatever the settings say, a capability never outlives the idle timeout and never exceeds 15 minutes. */
  lemma TtlWithinIdle(cfg: Settings)
    ensures 60 * SECOND <= cfg.Ttl() <= cfg.Idle()
    ensures cfg.Ttl() <= 900 * SECOND
    ensures cfg.Absolute() >= 300 * SECOND
  {
  }
}

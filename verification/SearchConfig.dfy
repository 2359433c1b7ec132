/** The settings that a search depends on, and what their validation guarantees. */
module SearchConfig {
  import opened Wrappers

  datatype Settings = Settings(
    radiusMin: int,
    radiusDefault: int,
    radiusMax: int,
    gpsFreshness: int,
    displayLimit: int,
    candidateLimit: int)

  datatype ConfigError = NotPositive | RadiusOrder | LimitOrder

  function ValidateAppConfig(c: Settings): Option<ConfigError> {
    if c.radiusMin <= 0 || c.radiusDefault <= 0 || c.radiusMax <= 0 || c.gpsFreshness <= 0
       || c.displayLimit <= 0 || c.candidateLimit <= 0 then Some(NotPositive)
    else if !(c.radiusMin <= c.radiusDefault <= c.radiusMax) then Some(RadiusOrder)
    else if c.displayLimit > c.candidateLimit then Some(LimitOrder)
    else None
  }

  /** A radius that a driver may store; none stands for the default. */
  predicate RadiusAccepted(c: Settings, radius: Option<int>) {
    radius.None? || c.radiusMin <= radius.value <= c.radiusMax
  }

  function RadiusOrDefault(c: Settings, radius: Option<int>): int {
    if radius.None? then c.radiusDefault else radius.value
  }

  /** With validated settings, no stored radius reaches beyond what a search looks at. */
  lemma {:induction false} RadiusWithinMaximum(c: Settings, radius: Option<int>)
    requires ValidateAppConfig(c).None? && RadiusAccepted(c, radius)
    ensures c.radiusMin <= RadiusOrDefault(c, radius) <= c.radiusMax
  {
  }
}

/** The on-disk and in-memory document: one row per compose service. */
module Schema {

  /** time.Time as nanoseconds since the Unix epoch. */
  type Instant = int

  const SECOND: int := 1_000_000_000

  /** Go's zero time.Time: the first instant of year 1. */
  const ZERO_INSTANT: Instant := -62_135_596_800 * SECOND

  predicate IsZero(t: Instant) {
    t == ZERO_INSTANT
  }

  /** Time.Unix: whole seconds, rounded down. */
  function UnixSeconds(t: Instant): (r: int)
    ensures r * SECOND <= t < (r + 1) * SECOND
  {
    t / SECOND
  }

  datatype Container = Container(
    service: string,
    image: string,
    tag: string,
    currentDigest: string,
    previousDigest: string,
    updateAvailable: bool,
    containerID: string,
    labels: map<string, string>,
    pinned: bool,
    stopped: bool,
    availableDigest: string,
    currentDigestAt: Instant,
    previousDigestAt: Instant,
    previousDigestBuiltAt: Instant,
    availableDigestAt: Instant,
    lastPolledAt: Instant,
    notes: string,
    actionInFlight: string,
    actionError: string)

  /** Go's zero Container, which a read of a missing map key yields. */
  const EMPTY_ROW := Container("", "", "", "", "", false, "", map[], false, false, "",
                               ZERO_INSTANT, ZERO_INSTANT, ZERO_INSTANT, ZERO_INSTANT, ZERO_INSTANT,
                               "", "", "")

  datatype State = State(
    version: int,
    containers: map<string, Container>,
    lastPollStart: Instant,
    lastPollEnd: Instant,
    lastPollError: string)

  const SCHEMA_VERSION := 1

  const EMPTY_STATE := State(SCHEMA_VERSION, map[], ZERO_INSTANT, ZERO_INSTANT, "")

  function Row(s: State, svc: string): Container {
    if svc in s.containers then s.containers[svc] else EMPTY_ROW
  }

  const NOTE_PINNED_OPT_OUT := "pinned: opt-out"
  const NOTE_TAG_MISMATCH := "running tag does not match tag-pattern label"
  const NOTE_INVALID_TAG_PATTERN := "invalid tag-pattern label, ignored"
  const NOTE_REGISTRY_PREFIX := "registry error: "
  const NOTE_REGISTRY_SUFFIX := " (check image ref)"
}

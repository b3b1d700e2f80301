/** The canonical range of clock readings. */
module Clock {
  import opened Prelude

  const MIN_CANONICAL_MS := -62_167_219_200_000
  const MAX_CANONICAL_MS := 253_402_300_799_999

  /** A time whose ISO text the stores accept: see IsoTime.AcceptedExactlyInRange. */
  predicate CanonicalTime(ms: int) {
    MIN_CANONICAL_MS <= ms <= MAX_CANONICAL_MS
  }
}

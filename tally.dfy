/**
 * Word-count maps, shared by the mapper, which writes them, and the reducer,
 * which reads and adds them. The Go code reads them as `map[string]int`,
 * where a missing key reads as 0.
 */
module Tally {
  /** A word-count map as the mapper writes it and the reducer reads it. */
  type Counts = map<string, int>

  /** What the handlers read for a key: Go's zero value for a missing one. */
  function Get(m: Counts, k: string): int
  {
    if k in m then m[k] else 0
  }
}

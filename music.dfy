/**
 * The pitch arithmetic the progression relies on, supplied from outside.
 *
 * The original asks a music-theory library for two things: a note moved by
 * an interval (spelled back as note name plus accidental) and the quality of
 * the chord built on a root with a given chord name. Both are foreign calls,
 * so the model receives them as function values and never inspects them.
 * A move by two intervals in a row is two calls of `transpose`, which
 * assumes that spelling the pitch in between loses nothing the second
 * interval depends on.
 */
module Music {

  /** A spelled pitch name such as "C" or "Bb". */
  type Pitch = string

  /** A chord-name token such as "maj7", "m7" or "7". */
  type ChordName = string

  /** A chord quality such as "major", "minor" or "dominant". */
  type Quality = string

  /** The intervals the substitution rules move by. */
  datatype Interval = PerfectFifth | PerfectFourth | MajorSecond | DiminishedFifth

  /** The injected music-theory provider. */
  datatype Theory = Theory(
    transpose: (Pitch, Interval) -> Pitch,
    quality: (Pitch, ChordName) -> Quality)

  const Dominant: Quality := "dominant"
  const Minor: Quality := "minor"
  const Major: Quality := "major"

  const Seventh: ChordName := "7"
  const MinorSeventh: ChordName := "m7"
  const MajorSeventh: ChordName := "maj7"
}

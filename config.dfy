/**
 * The configuration constants the blink detector reads (config.py).
 * Python floats are modelled as exact reals.
 */
module Config {

  /** Eye aspect ratio below which the eye counts as closed. config.py assigns it
      twice; the later assignment (0.22) is the one in effect. */
  const EarThreshold: real := 0.22

  /** Shortest closure counted as a normal blink, in seconds. */
  const MinBlinkDurationSeconds: real := 0.1

  /** Longest closure counted as a normal blink, in seconds. */
  const MaxNormalBlinkDurationSeconds: real := 0.5

  /** Shortest closure counted as a long (fatigue) blink, in seconds. */
  const LongBlinkDurationSeconds: real := 1.0
}

/** The fixed configuration of the yawn and BlueCoin monitor (src/config.py).
    Values that the program reads from the environment are fixed here at
    their defaults; timestamps and durations are seconds, as reals. */
module Config {

  /** Length of the sliding yawn window: ten minutes. */
  const YawnWindowSeconds: real := 600.0

  /** Yawns in the window that start a BlueCoin session. */
  const YawnThreshold: nat := 3

  /** Yawns in the window that print the "take a break" warning. */
  const YawnWarningCount: nat := 5

  /** Minimum time between two accepted yawns. */
  const YawnDebounceSeconds: real := 3.0

  /** Maximum duration of one BlueCoin session: five minutes. */
  const BlueCoinSessionSeconds: real := 300.0

  /** Mean absolute Z rotation (degrees per second) above which a session alerts. */
  const GyroThreshold: real := 35.0

  /** Default of the 1-based BLUECOIN_INDEX device position. */
  const DefaultBlueCoinIndex: int := 1
}

/** The simulator's physical and numerical constants. */
module Constants {
  /** The gravitational constant, in SI units. */
  const G: real := 6.67428e-11
  /** Metres in one length unit of the simulation. */
  const SCALE: real := 1.0e9
  /** Simulated seconds per tick: three hours. */
  const DT: real := 3.0 * 3600.0
}

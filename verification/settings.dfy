/** The runtime configuration, loaded once from the YAML configuration file
    (src/config.py) and never changed afterwards; here an immutable record
    passed to every operation that reads it. */
module Settings {

  datatype Config = Config(
    // Virtual slope
    commandPeriod: real,            // seconds between two depth commands
    transitionTime: nat,            // number of ticks of a step transition
    // Altitude safety
    altitudeThresholdLevel: real,   // below it a downward slope holds depth
    altitudeThresholdAscend: real,  // below it the vehicle ascends
    waitTime: real,                 // seconds of WAIT after a safety action
    // Depth limits of the overload channel
    minDepth: real,
    maxDepth: real,
    // Line start and subphase point tolerances
    lineStartToleranceLatLon: real,
    lineStartToleranceDepth: real,
    lineStartToleranceHeading: real,
    subphaseCoordinatesTolerance: real
  )
}

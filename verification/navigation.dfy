/** The navigation record carried by a DesBridge `$NAVIGATION` message
    (`NavigationData` in src/DesBridge_api.py): 34 optional readings, one per
    comma-separated field, each absent when the sensor reported UNDEF or
    the field was missing. */
module Navigation {
  import opened Optional

  datatype NavigationData = NavigationData(
    // Position (fields 1-6)
    latitude: Option<real>,
    longitude: Option<real>,
    sigmapos: Option<real>,
    depth: Option<real>,
    altitude: Option<real>,
    seabed: Option<real>,
    // Ground velocity, geographic frame (fields 7-10)
    northSpeed: Option<real>,
    eastSpeed: Option<real>,
    downSpeed: Option<real>,
    upSpeed: Option<real>,
    // Ground velocity, body frame (fields 11-13)
    uSpeed: Option<real>,
    vSpeed: Option<real>,
    wSpeed: Option<real>,
    // Water velocity, geographic frame (fields 14-17)
    waterNorthSpeed: Option<real>,
    waterEastSpeed: Option<real>,
    waterDownSpeed: Option<real>,
    waterUpSpeed: Option<real>,
    // Water velocity, body frame (fields 18-20)
    waterUSpeed: Option<real>,
    waterVSpeed: Option<real>,
    waterWSpeed: Option<real>,
    // Current velocity (fields 21-22)
    currentNorthSpeed: Option<real>,
    currentEastSpeed: Option<real>,
    // Orientation (fields 23-25)
    heading: Option<real>,
    roll: Option<real>,
    pitch: Option<real>,
    // Angular rates (fields 26-31)
    yawRate: Option<real>,
    rollRate: Option<real>,
    pitchRate: Option<real>,
    p: Option<real>,
    q: Option<real>,
    r: Option<real>,
    // Accelerations (fields 32-34)
    ax: Option<real>,
    ay: Option<real>,
    az: Option<real>
  )

  /** Number of readings in a navigation record. */
  const FieldCount: nat := 34

  /** The reading stored for field `k` of the message (fields are numbered
      from 1; field 0 is the `$NAVIGATION` tag). */
  function FieldAt(nav: NavigationData, k: nat): Option<real>
    requires 1 <= k <= FieldCount
  {
    if k == 1 then nav.latitude
    else if k == 2 then nav.longitude
    else if k == 3 then nav.sigmapos
    else if k == 4 then nav.depth
    else if k == 5 then nav.altitude
    else if k == 6 then nav.seabed
    else if k == 7 then nav.northSpeed
    else if k == 8 then nav.eastSpeed
    else if k == 9 then nav.downSpeed
    else if k == 10 then nav.upSpeed
    else if k == 11 then nav.uSpeed
    else if k == 12 then nav.vSpeed
    else if k == 13 then nav.wSpeed
    else if k == 14 then nav.waterNorthSpeed
    else if k == 15 then nav.waterEastSpeed
    else if k == 16 then nav.waterDownSpeed
    else if k == 17 then nav.waterUpSpeed
    else if k == 18 then nav.waterUSpeed
    else if k == 19 then nav.waterVSpeed
    else if k == 20 then nav.waterWSpeed
    else if k == 21 then nav.currentNorthSpeed
    else if k == 22 then nav.currentEastSpeed
    else if k == 23 then nav.heading
    else if k == 24 then nav.roll
    else if k == 25 then nav.pitch
    else if k == 26 then nav.yawRate
    else if k == 27 then nav.rollRate
    else if k == 28 then nav.pitchRate
    else if k == 29 then nav.p
    else if k == 30 then nav.q
    else if k == 31 then nav.r
    else if k == 32 then nav.ax
    else if k == 33 then nav.ay
    else nav.az
  }

  /** The record whose field `k` is `field(k)` for every `k` in 1..34. */
  function FromFields(field: nat -> Option<real>): (nav: NavigationData)
    ensures forall k :: 1 <= k <= FieldCount ==> FieldAt(nav, k) == field(k)
  {
    NavigationData(
      field(1),
      field(2),
      field(3),
      field(4),
      field(5),
      field(6),
      field(7),
      field(8),
      field(9),
      field(10),
      field(11),
      field(12),
      field(13),
      field(14),
      field(15),
      field(16),
      field(17),
      field(18),
      field(19),
      field(20),
      field(21),
      field(22),
      field(23),
      field(24),
      field(25),
      field(26),
      field(27),
      field(28),
      field(29),
      field(30),
      field(31),
      field(32),
      field(33),
      field(34))
  }
}

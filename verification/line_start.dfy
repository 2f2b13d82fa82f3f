/** Position checks against a subphase of the mission file
    (src/check_line_start.py): the line-start test of the first subphase
    (position, depth and heading within tolerance) and the point test used
    for the end of every subphase. The great-circle distance and the
    initial bearing are floating-point trigonometry and enter as the
    parameter `Geodesy`; everything around them is modelled. */
module LineStart {
  import opened Optional
  import opened Numbers
  import opened Settings
  import opened Navigation

  /** The fields of one subphase entry of the mission file; a missing key
      is `None`. */
  datatype SubphaseData = SubphaseData(
    startLat: Option<real>, startLon: Option<real>, startZ: Option<real>,
    endLat: Option<real>, endLon: Option<real>, endZ: Option<real>,
    speed: Option<real>
  )

  /** `calculate_distance_meters` (haversine, metres) and the raw
      `degrees(atan2(..))` bearing of `calculate_heading_degrees`, in
      (-180, 180]. */
  datatype Geodesy = Geodesy(
    distance: (real, real, real, real) -> real,
    bearing: (real, real, real, real) -> real
  )

  /** `(h + 360) % 360` with Python's floored remainder: the same direction,
      as a heading in [0, 360). */
  function NormalizeDegrees(h: real): (r: real)
    ensures 0.0 <= r < 360.0
    ensures 0.0 <= h < 360.0 ==> r == h
    ensures -360.0 <= h < 0.0 ==> r == h + 360.0
    ensures (r - h) / 360.0 == ((r - h) / 360.0).Floor as real
  {
    var r := FloorMod(h + 360.0, 360.0);
    var q := ((h + 360.0) / 360.0).Floor;
    WholeTurns(h, q);
    assert 0.0 <= h < 360.0 ==> r == h by {
      if 0.0 <= h < 360.0 {
        FloorOfTurns(h + 360.0, 1);
      }
    }
    assert -360.0 <= h < 0.0 ==> r == h + 360.0 by {
      if -360.0 <= h < 0.0 {
        FloorOfTurns(h + 360.0, 0);
      }
    }
    r
  }

  /** A heading `x` in `[360 n, 360 (n + 1))` is `n` whole turns plus less
      than one. */
  lemma FloorOfTurns(x: real, n: int)
    requires 360.0 * n as real <= x < 360.0 * (n + 1) as real
    ensures (x / 360.0).Floor == n
  {
    assert n as real <= x / 360.0 < (n + 1) as real;
  }

  /** Removing `q` turns from `h + 360` changes `h` by a whole number of
      turns. */
  lemma WholeTurns(h: real, q: int)
    ensures var r := h + 360.0 - 360.0 * q as real;
            (r - h) / 360.0 == ((r - h) / 360.0).Floor as real
  {
    var r := h + 360.0 - 360.0 * q as real;
    var d := (1 - q) as real;
    assert r - h == 360.0 * d;
    assert (r - h) / 360.0 == d;
    assert d.Floor == 1 - q;
  }

  /** `calculate_heading_degrees`: the initial bearing from start to end as
      a heading in [0, 360). */
  function TargetHeading(g: Geodesy, startLat: real, startLon: real,
                         endLat: real, endLon: real): (r: real)
    ensures 0.0 <= r < 360.0
  {
    NormalizeDegrees(g.bearing(startLat, startLon, endLat, endLon))
  }

  /** `calculate_heading_difference`: the smaller of the two turns between
      two headings. */
  function HeadingDifference(current: real, target: real): (r: real)
    ensures 0.0 <= current <= 360.0 && 0.0 <= target <= 360.0 ==> 0.0 <= r <= 180.0
    ensures r <= Abs(current - target)
  {
    Min(Abs(current - target), 360.0 - Abs(current - target))
  }

  /** The heading difference does not depend on which heading comes first. */
  lemma HeadingDifferenceSymmetric(a: real, b: real)
    ensures HeadingDifference(a, b) == HeadingDifference(b, a)
  {
    assert Abs(a - b) == Abs(b - a);
  }

  /** For headings in [0, 360) the difference is the shortest turn: no
      whole number of extra turns brings the headings closer, and one of
      -1, 0, 1 extra turns attains it. */
  lemma HeadingDifferenceIsShortestTurn(a: real, b: real, k: int)
    requires 0.0 <= a < 360.0 && 0.0 <= b < 360.0
    ensures HeadingDifference(a, b) <= Abs(a - b + 360.0 * k as real)
    ensures HeadingDifference(a, b) == Abs(a - b)
            || HeadingDifference(a, b) == Abs(a - b + 360.0)
            || HeadingDifference(a, b) == Abs(a - b - 360.0)
  {
    if k >= 1 {
      assert 360.0 * k as real >= 360.0;
    } else if k <= -1 {
      assert 360.0 * k as real <= -360.0;
    }
  }

  /** The vehicle's position lies within the line-start tolerance of the
      subphase's start point. */
  predicate NearStartPoint(n: NavigationData, data: SubphaseData, g: Geodesy, cfg: Config)
    requires n.latitude.Some? && n.longitude.Some? && data.startLat.Some? && data.startLon.Some?
  {
    g.distance(n.latitude.value, n.longitude.value, data.startLat.value, data.startLon.value)
      <= cfg.lineStartToleranceLatLon
  }

  /** The vehicle's depth lies within the line-start tolerance of the
      subphase's `START_Z`. */
  predicate NearStartDepth(n: NavigationData, data: SubphaseData, cfg: Config)
    requires n.depth.Some? && data.startZ.Some?
  {
    Abs(n.depth.value - data.startZ.value) <= cfg.lineStartToleranceDepth
  }

  /** The vehicle points along the line, within the heading tolerance, or
      its heading is unknown. */
  predicate AlignedWithLine(n: NavigationData, data: SubphaseData, g: Geodesy, cfg: Config)
    requires data.startLat.Some? && data.startLon.Some? && data.endLat.Some? && data.endLon.Some?
  {
    n.heading.Some? ==>
      HeadingDifference(n.heading.value,
                        TargetHeading(g, data.startLat.value, data.startLon.value,
                                      data.endLat.value, data.endLon.value))
      <= cfg.lineStartToleranceHeading
  }

  /** `check_line_start`: the vehicle is at the start of the line when its
      position, depth and (when known) heading are within the configured
      tolerances; missing navigation readings or a subphase entry missing a
      key give `false`. */
  function CheckLineStart(data: SubphaseData, nav: Option<NavigationData>,
                          g: Geodesy, cfg: Config): (ok: bool)
    ensures nav.None? ==> !ok
    ensures nav.Some? && (nav.value.latitude.None? || nav.value.longitude.None? || nav.value.depth.None?) ==> !ok
    ensures (data.startLat.None? || data.startLon.None? || data.startZ.None?
             || data.endLat.None? || data.endLon.None?) ==> !ok
    ensures ok <==>
      nav.Some? && nav.value.latitude.Some? && nav.value.longitude.Some? && nav.value.depth.Some?
      && data.startLat.Some? && data.startLon.Some? && data.startZ.Some?
      && data.endLat.Some? && data.endLon.Some?
      && NearStartPoint(nav.value, data, g, cfg)
      && NearStartDepth(nav.value, data, cfg)
      && AlignedWithLine(nav.value, data, g, cfg)
  {
    match nav
    case None => false
    case Some(n) =>
      if n.latitude.None? || n.longitude.None? || n.depth.None? then false
      else if data.startLat.None? || data.startLon.None? || data.startZ.None?
              || data.endLat.None? || data.endLon.None? then false
      else
        var targetHeading := TargetHeading(g, data.startLat.value, data.startLon.value,
                                           data.endLat.value, data.endLon.value);
        var distance := g.distance(n.latitude.value, n.longitude.value,
                                   data.startLat.value, data.startLon.value);
        if distance > cfg.lineStartToleranceLatLon then false
        else if Abs(n.depth.value - data.startZ.value) > cfg.lineStartToleranceDepth then false
        else if n.heading.Some?
                && HeadingDifference(n.heading.value, targetHeading) > cfg.lineStartToleranceHeading then false
        else true
  }

  /** `check_point`: the vehicle is at a point when its position is known
      and within the subphase-coordinates tolerance of it. */
  function CheckPoint(targetLat: real, targetLon: real, nav: Option<NavigationData>,
                      g: Geodesy, cfg: Config): (ok: bool)
    ensures ok <==>
      nav.Some? && nav.value.latitude.Some? && nav.value.longitude.Some?
      && g.distance(nav.value.latitude.value, nav.value.longitude.value, targetLat, targetLon)
         <= cfg.subphaseCoordinatesTolerance
  {
    match nav
    case None => false
    case Some(n) =>
      if n.latitude.None? || n.longitude.None? then false
      else !(g.distance(n.latitude.value, n.longitude.value, targetLat, targetLon)
             > cfg.subphaseCoordinatesTolerance)
  }

  /** Depth and heading play no part in the point test, while a line start
      also needs the depth: a line start at a position is a point reached
      at the line's start, given the tolerances agree. */
  lemma LineStartImpliesStartPoint(data: SubphaseData, nav: Option<NavigationData>,
                                   g: Geodesy, cfg: Config)
    requires cfg.lineStartToleranceLatLon <= cfg.subphaseCoordinatesTolerance
    requires CheckLineStart(data, nav, g, cfg)
    ensures CheckPoint(data.startLat.value, data.startLon.value, nav, g, cfg)
  {
  }
}
